// The cache of the files other applications keep beside the photos, as a protocol: what was last read from a file (the
// base) and what waits for an answer (the pending change), each with the stat of the file it was read at. Scans look
// first and read later, exports ask, write and then look at what they wrote, and other applications write at any time.
module ExternalFiles {
  import opened Wrappers
  import opened KeywordIndex

  type Path = string

  /** The size and time of a file, as one number that every write makes anew; a file that is not there has none. */
  type Stat = nat
  const NO_FILE: Stat := 0

  datatype Fields = Fields(values: map<string, string>)

  const EMPTY := Fields(map[])

  datatype File = File(stat: Stat, fields: Fields)

  datatype Pending = Pending(stat: Stat, file: Fields)

  datatype Row = Row(path: Path, stat: Stat, base: Fields, pending: Option<Pending>)

  /** A file as it was looked at: its stat then, and later what it held. */
  datatype Glance = Glance(path: Path, stat: Stat)
  datatype Reading = Reading(stat: Stat, fields: Fields)

  datatype Message =
    | Seen(photo: PhotoId, path: Path, reading: Reading)
    | Ask(job: ExportId, photo: PhotoId, path: Path, existing: Option<Reading>, merging: bool)
    | Written(photo: PhotoId, path: Path, reading: Reading)

  type ExportId = nat

  /** An export that may write, on what it was decided; and one that has written and not yet looked at what it wrote. */
  datatype Export =
    | Granted(photo: PhotoId, path: Path, existing: Option<Reading>, wrote: Fields)
    | Unchecked(photo: PhotoId, path: Path, wrote: Fields)

  /** `said` is what each photo that can be read says itself. */
  datatype State = State(
    files: map<Path, File>, clock: Stat, glances: seq<Glance>, exports: map<ExportId, Export>,
    inbound: seq<Message>, known: set<PhotoId>, said: map<PhotoId, Fields>, rows: map<PhotoId, Row>)

  /** What the world decides when the coordinator takes a question: whether a file whose fields a merge leaves as they
      are is left alone (it is not when it was never exported before), and whether the old one could be kept. */
  datatype Answer = Answer(same: bool, kept: bool)

  /** The two computations a photo's file goes through, which are left open: `differs` tells whether a base, what the
      file holds and what the photo says give anything to take or to ask, and `merged` is what an export makes of the
      file from what the photo says and what the file holds. */
  datatype Rules = Rules(differs: (Fields, Fields, Fields) -> bool, merged: (Fields, Fields) -> Fields)

  datatype Event =
    | OutsideWrites(path: Path, fields: Fields)
    | OutsideDeletes(path: Path)
    | Looks(path: Path)
    | ScanReads(photo: PhotoId, glance: nat)
    | ExportAsks(job: ExportId, photo: PhotoId, path: Path, look: Option<nat>, merging: bool)
    | ExportWrites(job: ExportId)
    | ExportLooks(job: ExportId)
    | CoordinatorTakes(answer: Answer)
    | AnswerChange(photo: PhotoId, said: Fields)
    | PhotoSays(photo: PhotoId, said: Fields)
    | PhotoUnreadable(photo: PhotoId)
    | PhotoLeaves(photo: PhotoId)
    | PhotoMoves(photo: PhotoId)

  // ---------------------------------------------------------------- the rows

  /** Whether a scan has to open the file: nothing is known of it, another file was tracked, or its stat is neither the
      base's nor that of a change already noticed. */
  predicate NeedsReading(rows: map<PhotoId, Row>, photo: PhotoId, glance: Glance) {
    photo in rows ==>
      var row := rows[photo];
      || row.path != glance.path
      || (row.stat != glance.stat && !(row.pending.Some? && row.pending.value.stat == glance.stat))
  }

  function SetBase(s: State, photo: PhotoId, path: Path, reading: Reading): State {
    if photo in s.known then s.(rows := s.rows[photo := Row(path, reading.stat, reading.fields, None)]) else s
  }

  function SetPending(s: State, photo: PhotoId, reading: Reading): State {
    if photo in s.rows
    then s.(rows := s.rows[photo := s.rows[photo].(pending := Some(Pending(reading.stat, reading.fields)))]) else s
  }

  function Settle(s: State, photo: PhotoId): State {
    if photo in s.rows && s.rows[photo].pending.Some? then
      var p := s.rows[photo].pending.value;
      s.(rows := s.rows[photo := Row(s.rows[photo].path, p.stat, p.file, None)])
    else s
  }

  predicate Tracked(s: State, photo: PhotoId, path: Path) { photo in s.rows && s.rows[photo].path == path }

  /** What was read from a photo's file: compared when the file is tracked and the photo can be read, else taken as the
      base silently. */
  function HandleSeen(s: State, m: Message, rules: Rules): State
    requires m.Seen?
  {
    if Tracked(s, m.photo, m.path) && m.photo in s.said
       && rules.differs(s.rows[m.photo].base, m.reading.fields, s.said[m.photo])
    then SetPending(s, m.photo, m.reading)
    else SetBase(s, m.photo, m.path, m.reading)
  }

  function Grant(s: State, m: Message, wrote: Fields): State
    requires m.Ask?
  {
    s.(exports := s.exports[m.job := Granted(m.photo, m.path, m.existing, wrote)])
  }

  /** What to do with a photo's file: nothing when the photo cannot be read, when a change waits or the file has
      something to take or ask (which then waits), or when it is up to date; otherwise it may be written, with what the
      photo says now. A file that is replaced is written as if there were none. */
  function PrepareExport(s: State, m: Message, answer: Answer, rules: Rules): State
    requires m.Ask?
  {
    if m.photo !in s.said then s
    else if m.existing.None? then Grant(s, m, rules.merged(s.said[m.photo], EMPTY))
    else if !m.merging then if answer.kept then Grant(s, m, rules.merged(s.said[m.photo], EMPTY)) else s
    else
      var tracked, file := Tracked(s, m.photo, m.path), m.existing.value;
      var merged := rules.merged(s.said[m.photo], file.fields);
      if tracked && s.rows[m.photo].pending.Some? then s
      else if rules.differs(if tracked then s.rows[m.photo].base else EMPTY, file.fields, s.said[m.photo]) then
        var with := if tracked then s else SetBase(s, m.photo, m.path, Reading(NO_FILE, EMPTY));
        SetPending(with, m.photo, file)
      else if merged == file.fields && answer.same then SetBase(s, m.photo, m.path, file)
      else if answer.kept then Grant(s, m, merged) else s
  }

  function HandleMessage(s: State, m: Message, answer: Answer, rules: Rules): State {
    match m
    case Seen(_, _, _) => HandleSeen(s, m, rules)
    case Ask(_, _, _, _, _) => PrepareExport(s, m, answer, rules)
    case Written(photo, path, reading) => SetBase(s, photo, path, reading)
  }

  // ---------------------------------------------------------------- the files

  function Write(s: State, path: Path, fields: Fields): State {
    s.(files := s.files[path := File(s.clock, fields)], clock := s.clock + 1)
  }

  function StatOf(s: State, path: Path): Stat { if path in s.files then s.files[path].stat else NO_FILE }

  /** Whether the file is still what the decision was made on. */
  predicate AsRead(s: State, path: Path, existing: Option<Reading>) {
    if existing.None? then path !in s.files else path in s.files && s.files[path].stat == existing.value.stat
  }

  predicate CanHappen(s: State, e: Event) {
    match e
    case ScanReads(photo, glance) => glance < |s.glances| && s.glances[glance].path in s.files
    case ExportAsks(id, photo, path, look, _) =>
      && id !in s.exports
      && (look.Some? ==> look.value < |s.glances| && s.glances[look.value].path == path && path in s.files)
    case ExportWrites(id) => id in s.exports && s.exports[id].Granted?
    case ExportLooks(id) => id in s.exports && s.exports[id].Unchecked?
    case CoordinatorTakes(_) => s.inbound != []
    case PhotoUnreadable(photo) => photo in s.known
    case PhotoSays(photo, _) => photo in s.known
    case _ => true
  }

  function Next(s: State, e: Event, rules: Rules): State
    requires CanHappen(s, e)
  {
    match e
    case OutsideWrites(path, fields) => Write(s, path, fields)
    case OutsideDeletes(path) => s.(files := s.files - {path})
    case Looks(path) => s.(glances := s.glances + [Glance(path, StatOf(s, path))])
    case ScanReads(photo, glance) =>
      var g := s.glances[glance];
      s.(inbound := s.inbound + [Seen(photo, g.path, Reading(g.stat, s.files[g.path].fields))])
    case ExportAsks(id, photo, path, look, merging) =>
      var existing := if look.None? then None else Some(Reading(s.glances[look.value].stat, s.files[path].fields));
      s.(inbound := s.inbound + [Ask(id, photo, path, existing, merging)])
    case ExportWrites(id) =>
      var x := s.exports[id];
      if AsRead(s, x.path, x.existing)
      then Write(s, x.path, x.wrote).(exports := s.exports[id := Unchecked(x.photo, x.path, x.wrote)])
      else s.(exports := s.exports - {id})
    case ExportLooks(id) =>
      var x := s.exports[id];
      s.(inbound := s.inbound + [Written(x.photo, x.path, Reading(StatOf(s, x.path), x.wrote))],
         exports := s.exports - {id})
    case CoordinatorTakes(answer) => HandleMessage(s.(inbound := s.inbound[1..]), s.inbound[0], answer, rules)
    case AnswerChange(photo, said) =>
      if photo in s.said then Settle(s, photo).(said := s.said[photo := said]) else Settle(s, photo)
    case PhotoSays(photo, said) => s.(said := s.said[photo := said])
    case PhotoUnreadable(photo) => s.(said := s.said - {photo})
    case PhotoLeaves(photo) => s.(known := s.known - {photo}, said := s.said - {photo}, rows := s.rows - {photo})
    case PhotoMoves(photo) => s.(rows := s.rows - {photo})
  }

  // ---------------------------------------------------------------- coherence

  /** What was read at a stat is what the file holds, if the file still has that stat. */
  predicate Holds(s: State, path: Path, reading: Reading) {
    && reading.stat < s.clock
    && (path in s.files && s.files[path].stat == reading.stat ==> s.files[path].fields == reading.fields)
  }

  predicate RowHolds(s: State, row: Row) {
    && Holds(s, row.path, Reading(row.stat, row.base))
    && (row.pending.Some? ==> Holds(s, row.path, Reading(row.pending.value.stat, row.pending.value.file)))
  }

  predicate MessageHolds(s: State, m: Message) {
    match m
    case Seen(_, path, reading) => Holds(s, path, reading)
    case Ask(_, _, path, existing, _) => existing.Some? ==> Holds(s, path, existing.value)
    case Written(_, path, reading) => Holds(s, path, reading)
  }

  predicate ExportHolds(s: State, x: Export) {
    match x
    case Granted(_, path, existing, _) => existing.Some? ==> Holds(s, path, existing.value)
    case Unchecked(_, path, wrote) => path in s.files ==> s.files[path].fields == wrote
  }

  /** Every record there is, kept or on its way, tells the truth about the file at the stat it names. */
  predicate Coherent(s: State) {
    && s.clock > NO_FILE && s.rows.Keys <= s.known && s.said.Keys <= s.known
    && (forall p | p in s.files :: NO_FILE < s.files[p].stat < s.clock)
    && (forall i | 0 <= i < |s.glances| :: s.glances[i].stat < s.clock)
    && (forall p | p in s.rows :: RowHolds(s, s.rows[p]))
    && (forall i | 0 <= i < |s.inbound| :: MessageHolds(s, s.inbound[i]))
    && forall id | id in s.exports :: ExportHolds(s, s.exports[id])
  }

  /** Something writes to a file that an export has written and not yet looked at. */
  predicate SlipsIn(s: State, path: Path, fields: Fields) {
    exists id :: id in s.exports && s.exports[id].Unchecked? && s.exports[id].path == path
      && s.exports[id].wrote != fields
  }

  predicate InTheClear(s: State, e: Event) {
    match e
    case OutsideWrites(path, fields) => !SlipsIn(s, path, fields)
    case ExportWrites(id) => id in s.exports && s.exports[id].Granted? ==>
        !SlipsIn(s, s.exports[id].path, s.exports[id].wrote)
    case _ => true
  }

  lemma WritingKeepsRow(s: State, path: Path, fields: Fields, row: Row)
    requires RowHolds(s, row)
    ensures RowHolds(Write(s, path, fields), row)
  {
  }

  lemma WritingKeepsMessage(s: State, path: Path, fields: Fields, m: Message)
    requires MessageHolds(s, m)
    ensures MessageHolds(Write(s, path, fields), m)
  {
  }

  /** **A write keeps the cache coherent exactly when no export has just written that file and not yet looked.** */
  lemma WritingKeepsExactly(s: State, path: Path, fields: Fields)
    requires Coherent(s)
    ensures Coherent(Write(s, path, fields)) <==> !SlipsIn(s, path, fields)
  {
    hide RowHolds, MessageHolds;
    var after := Write(s, path, fields);
    forall p | p in s.rows ensures RowHolds(after, s.rows[p]) {
      WritingKeepsRow(s, path, fields, s.rows[p]);
    }
    forall i | 0 <= i < |s.inbound| ensures MessageHolds(after, s.inbound[i]) {
      WritingKeepsMessage(s, path, fields, s.inbound[i]);
    }
    forall id | id in s.exports
      ensures ExportHolds(after, s.exports[id]) <==>
              !(s.exports[id].Unchecked? && s.exports[id].path == path && s.exports[id].wrote != fields)
    {
      assert ExportHolds(s, s.exports[id]);
    }
  }

  /** The messages on their way taken one by one, with whatever answers. */
  function AllTaken(s: State, taken: nat, answers: nat -> Answer, rules: Rules): State
    requires taken <= |s.inbound|
  {
    if taken == 0 then s
    else
      var before := AllTaken(s, taken - 1, answers, rules);
      HandleMessage(before.(inbound := s.inbound[taken..]), s.inbound[taken - 1], answers(taken - 1), rules)
  }

  lemma {:induction false} TakingLeavesFiles(s: State, taken: nat, answers: nat -> Answer, rules: Rules)
    requires taken <= |s.inbound|
    ensures var after := AllTaken(s, taken, answers, rules);
            after.files == s.files && after.known == s.known && after.inbound == s.inbound[taken..]
  {
    hide HandleMessage;
    if taken > 0 {
      TakingLeavesFiles(s, taken - 1, answers, rules);
      HandlingLeavesFiles(AllTaken(s, taken - 1, answers, rules).(inbound := s.inbound[taken..]), s.inbound[taken - 1],
                          answers(taken - 1), rules);
    }
  }

  lemma HandlingLeavesFiles(s: State, m: Message, answer: Answer, rules: Rules)
    ensures var after := HandleMessage(s, m, answer, rules);
            after.files == s.files && after.known == s.known && after.inbound == s.inbound
  {
  }

  /** Nothing would make a scan read the file again, and what it holds is in neither the base nor a waiting change. */
  predicate Hidden(s: State, photo: PhotoId, path: Path) {
    && path in s.files && !NeedsReading(s.rows, photo, Glance(path, s.files[path].stat)) && photo in s.rows
    && s.rows[photo].base != s.files[path].fields
    && (s.rows[photo].pending.Some? ==> s.rows[photo].pending.value.file != s.files[path].fields)
  }

  /** **Whatever slips in is missed**: when another write comes between an export's writing and its looking, then
      after the look and every message on its way, whatever is decided about them, the file is skipped and its content
      hidden. */
  lemma SlippingInHides(s: State, path: Path, fields: Fields, job: ExportId, answers: nat -> Answer,
                        rules: Rules)
    requires job in s.exports && s.exports[job].Unchecked? && s.exports[job].path == path
             && s.exports[job].wrote != fields
    requires s.exports[job].photo in s.known
    ensures SlipsIn(s, path, fields)
    ensures var looked := Next(Write(s, path, fields), ExportLooks(job), rules);
            Hidden(AllTaken(looked, |looked.inbound|, answers, rules), s.exports[job].photo, path)
  {
    hide AllTaken;
    var looked := Next(Write(s, path, fields), ExportLooks(job), rules);
    TakingLeavesFiles(looked, |looked.inbound| - 1, answers, rules);
    AllButOne(looked, |looked.inbound|, answers, rules);
  }

  lemma AllButOne(s: State, taken: nat, answers: nat -> Answer, rules: Rules)
    requires 0 < taken <= |s.inbound|
    ensures AllTaken(s, taken, answers, rules) ==
            HandleMessage(AllTaken(s, taken - 1, answers, rules).(inbound := s.inbound[taken..]), s.inbound[taken - 1],
                          answers(taken - 1), rules)
  {
  }

  lemma SetBaseKeeps(s: State, photo: PhotoId, path: Path, reading: Reading)
    requires Coherent(s) && Holds(s, path, reading)
    ensures Coherent(SetBase(s, photo, path, reading))
  {
    var after := SetBase(s, photo, path, reading);
    forall p | p in after.rows ensures RowHolds(after, after.rows[p]) {
      if p != photo {
        assert RowHolds(s, s.rows[p]);
      }
    }
    SameOthers(s, after);
  }

  lemma SetPendingKeeps(s: State, photo: PhotoId, reading: Reading)
    requires Coherent(s) && (photo in s.rows ==> Holds(s, s.rows[photo].path, reading))
    ensures Coherent(SetPending(s, photo, reading))
  {
    var after := SetPending(s, photo, reading);
    forall p | p in after.rows ensures RowHolds(after, after.rows[p]) {
      assert RowHolds(s, s.rows[p]);
    }
    SameOthers(s, after);
  }

  lemma SettleKeeps(s: State, photo: PhotoId)
    requires Coherent(s)
    ensures Coherent(Settle(s, photo))
  {
    var after := Settle(s, photo);
    forall p | p in after.rows ensures RowHolds(after, after.rows[p]) {
      assert RowHolds(s, s.rows[p]);
    }
    SameOthers(s, after);
  }

  /** Messages and exports that were coherent stay so when the files are as they were. */
  lemma SameOthers(s: State, t: State)
    requires Coherent(s) && t.files == s.files && t.clock == s.clock && t.glances == s.glances
    requires forall m | m in t.inbound :: m in s.inbound
    requires forall id | id in t.exports :: id in s.exports && t.exports[id] == s.exports[id]
    ensures forall i | 0 <= i < |t.inbound| :: MessageHolds(t, t.inbound[i])
    ensures forall id | id in t.exports :: ExportHolds(t, t.exports[id])
    ensures (forall p | p in t.files :: NO_FILE < t.files[p].stat < t.clock)
            && forall i | 0 <= i < |t.glances| :: t.glances[i].stat < t.clock
  {
    forall i | 0 <= i < |t.inbound| ensures MessageHolds(t, t.inbound[i]) {
      var m := t.inbound[i];
      assert m in t.inbound;
      var j :| 0 <= j < |s.inbound| && s.inbound[j] == m;
      assert MessageHolds(s, s.inbound[j]);
    }
    forall id | id in t.exports ensures ExportHolds(t, t.exports[id]) {
      assert ExportHolds(s, s.exports[id]);
    }
  }

  lemma GrantKeeps(s: State, id: ExportId, x: Export)
    requires Coherent(s) && ExportHolds(s, x)
    ensures Coherent(s.(exports := s.exports[id := x]))
  {
    var after := s.(exports := s.exports[id := x]);
    forall i | i in after.exports ensures ExportHolds(after, after.exports[i]) {
      if i != id {
        assert ExportHolds(s, s.exports[i]);
      }
    }
    forall i | 0 <= i < |s.inbound| ensures MessageHolds(after, s.inbound[i]) {
      assert MessageHolds(s, s.inbound[i]);
    }
    forall p | p in s.rows ensures RowHolds(after, s.rows[p]) {
      assert RowHolds(s, s.rows[p]);
    }
  }

  /** A message that tells the truth leaves the cache coherent, whatever is decided. */
  lemma HandlingKeeps(s: State, m: Message, answer: Answer, rules: Rules)
    requires Coherent(s) && MessageHolds(s, m)
    ensures Coherent(HandleMessage(s, m, answer, rules))
  {
    hide Coherent, SetBase, SetPending;
    match m
    case Seen(photo, path, reading) =>
      if Tracked(s, photo, path) {
        SetPendingKeeps(s, photo, reading);
      }
      SetBaseKeeps(s, photo, path, reading);
    case Ask(id, photo, path, existing, merging) =>
      if photo in s.said {
        GrantKeeps(s, id, Granted(photo, path, existing, rules.merged(s.said[photo], EMPTY)));
      }
      if existing.Some? {
        if photo in s.said {
          GrantKeeps(s, id, Granted(photo, path, existing, rules.merged(s.said[photo], existing.value.fields)));
        }
        SetBaseKeeps(s, photo, path, existing.value);
        HoldingBack(s, photo, path, existing.value);
      }
    case Written(photo, path, reading) => SetBaseKeeps(s, photo, path, reading);
  }

  lemma HoldingBack(s: State, photo: PhotoId, path: Path, reading: Reading)
    requires Coherent(s) && Holds(s, path, reading)
    ensures Tracked(s, photo, path) ==> Coherent(SetPending(s, photo, reading))
    ensures !Tracked(s, photo, path) ==>
              Coherent(SetPending(SetBase(s, photo, path, Reading(NO_FILE, EMPTY)), photo, reading))
  {
    if Tracked(s, photo, path) {
      SetPendingKeeps(s, photo, reading);
    } else {
      assert Holds(s, path, Reading(NO_FILE, EMPTY));
      SetBaseKeeps(s, photo, path, Reading(NO_FILE, EMPTY));
      var with := SetBase(s, photo, path, Reading(NO_FILE, EMPTY));
      SetPendingKeeps(with, photo, reading);
    }
  }

  // ---------------------------------------------------------------- every event

  /** One more message that tells the truth. */
  lemma SendingKeeps(s: State, m: Message)
    requires Coherent(s) && MessageHolds(s, m)
    ensures Coherent(s.(inbound := s.inbound + [m]))
  {
    var after := s.(inbound := s.inbound + [m]);
    forall i | 0 <= i < |after.inbound| ensures MessageHolds(after, after.inbound[i]) {
      if i < |s.inbound| {
        assert MessageHolds(s, s.inbound[i]);
      }
    }
    forall p | p in s.rows ensures RowHolds(after, s.rows[p]) {
      assert RowHolds(s, s.rows[p]);
    }
    forall id | id in s.exports ensures ExportHolds(after, s.exports[id]) {
      assert ExportHolds(s, s.exports[id]);
    }
  }

  lemma LookingKeeps(s: State, path: Path)
    requires Coherent(s)
    ensures Coherent(s.(glances := s.glances + [Glance(path, StatOf(s, path))]))
  {
    var after := s.(glances := s.glances + [Glance(path, StatOf(s, path))]);
    forall p | p in s.rows ensures RowHolds(after, s.rows[p]) {
      assert RowHolds(s, s.rows[p]);
    }
    forall i | 0 <= i < |s.inbound| ensures MessageHolds(after, s.inbound[i]) {
      assert MessageHolds(s, s.inbound[i]);
    }
    forall id | id in s.exports ensures ExportHolds(after, s.exports[id]) {
      assert ExportHolds(s, s.exports[id]);
    }
  }

  lemma DeletingKeeps(s: State, path: Path)
    requires Coherent(s)
    ensures Coherent(s.(files := s.files - {path}))
  {
    var after := s.(files := s.files - {path});
    forall p | p in s.rows ensures RowHolds(after, s.rows[p]) {
      assert RowHolds(s, s.rows[p]);
    }
    forall i | 0 <= i < |s.inbound| ensures MessageHolds(after, s.inbound[i]) {
      assert MessageHolds(s, s.inbound[i]);
    }
    forall id | id in s.exports ensures ExportHolds(after, s.exports[id]) {
      assert ExportHolds(s, s.exports[id]);
    }
  }

  lemma ExportWritingKeeps(s: State, e: Event, rules: Rules)
    requires Coherent(s) && e.ExportWrites? && CanHappen(s, e) && InTheClear(s, e)
    ensures Coherent(Next(s, e, rules))
  {
    var x := s.exports[e.job];
    if AsRead(s, x.path, x.existing) {
      WritingKeepsExactly(s, x.path, x.wrote);
      hide Coherent;
      var written := Write(s, x.path, x.wrote);
      GrantKeeps(written, e.job, Unchecked(x.photo, x.path, x.wrote));
    }
  }

  lemma ExportLookingKeeps(s: State, e: Event, rules: Rules)
    requires Coherent(s) && e.ExportLooks? && CanHappen(s, e)
    ensures Coherent(Next(s, e, rules))
  {
    var x := s.exports[e.job];
    assert ExportHolds(s, x);
    var m := Written(x.photo, x.path, Reading(StatOf(s, x.path), x.wrote));
    assert MessageHolds(s, m);
    SendingKeeps(s, m);
    hide Coherent;
  }

  lemma ReadingKeeps(s: State, e: Event, rules: Rules)
    requires Coherent(s) && (e.ScanReads? || e.ExportAsks?) && CanHappen(s, e)
    ensures Coherent(Next(s, e, rules))
  {
    var m := Next(s, e, rules).inbound[|s.inbound|];
    assert MessageHolds(s, m);
    SendingKeeps(s, m);
  }

  lemma TakingKeeps(s: State, e: Event, rules: Rules)
    requires Coherent(s) && e.CoordinatorTakes? && CanHappen(s, e)
    ensures Coherent(Next(s, e, rules))
  {
    var rest := s.(inbound := s.inbound[1..]);
    assert MessageHolds(s, s.inbound[0]);
    hide Coherent, MessageHolds, HandleMessage;
    HandlingKeeps(rest, s.inbound[0], e.answer, rules);
  }

  lemma AnsweringKeeps(s: State, e: Event, rules: Rules)
    requires Coherent(s) && e.AnswerChange?
    ensures Coherent(Next(s, e, rules))
  {
    SettleKeeps(s, e.photo);
    hide Coherent;
  }

  /** **Every event keeps the cache coherent**, other applications' writes between a look and a reading included. */
  lemma EveryEventKeeps(s: State, e: Event, rules: Rules)
    requires Coherent(s) && CanHappen(s, e) && InTheClear(s, e)
    ensures Coherent(Next(s, e, rules))
  {
    match e
    case OutsideWrites(path, fields) => WritingKeepsExactly(s, path, fields);
    case OutsideDeletes(path) => DeletingKeeps(s, path);
    case Looks(path) => LookingKeeps(s, path);
    case ScanReads(_, _) => ReadingKeeps(s, e, rules);
    case ExportAsks(_, _, _, _, _) => ReadingKeeps(s, e, rules);
    case ExportWrites(_) => ExportWritingKeeps(s, e, rules);
    case ExportLooks(_) => ExportLookingKeeps(s, e, rules);
    case CoordinatorTakes(_) => TakingKeeps(s, e, rules);
    case AnswerChange(_, _) => AnsweringKeeps(s, e, rules);
    case _ =>
  }

  predicate Run(states: seq<State>, events: seq<Event>, rules: Rules) {
    && |states| == |events| + 1
    && forall n | 0 <= n < |events| ::
         CanHappen(states[n], events[n]) && InTheClear(states[n], events[n])
           && states[n + 1] == Next(states[n], events[n], rules)
  }

  /** Files of any content, and nothing known of them yet. */
  predicate Fresh(s: State) {
    && s.clock > NO_FILE && (forall p | p in s.files :: NO_FILE < s.files[p].stat < s.clock)
    && s.glances == [] && s.exports == map[] && s.inbound == [] && s.rows == map[] && s.said.Keys <= s.known
  }

  lemma {:induction false} RunKeeps(states: seq<State>, events: seq<Event>, n: nat, rules: Rules)
    requires Run(states, events, rules) && Fresh(states[0]) && n <= |events|
    ensures Coherent(states[n])
  {
    hide Coherent, Next, CanHappen, InTheClear;
    if n > 0 {
      RunKeeps(states, events, n - 1, rules);
      EveryEventKeeps(states[n - 1], events[n - 1], rules);
    } else {
      FreshIsCoherent(states[0]);
    }
  }

  lemma FreshIsCoherent(s: State)
    requires Fresh(s)
    ensures Coherent(s)
  {
  }

  // ---------------------------------------------------------------- what coherence gives

  /** **A file that is skipped hides nothing**: along every run, a file a scan listed and does not read again is, if it
      is still as listed, exactly what the base or the pending change holds. */
  lemma SkippedHidesNothing(states: seq<State>, events: seq<Event>, n: nat, photo: PhotoId, glance: Glance,
                            rules: Rules)
    requires Run(states, events, rules) && Fresh(states[0]) && n <= |events|
    requires !NeedsReading(states[n].rows, photo, glance)
    requires glance.path in states[n].files && states[n].files[glance.path].stat == glance.stat
    ensures var row := states[n].rows[photo]; var now := states[n].files[glance.path].fields;
            row.path == glance.path && (row.base == now || (row.pending.Some? && row.pending.value.file == now))
  {
    RunKeeps(states, events, n, rules);
    assert RowHolds(states[n], states[n].rows[photo]);
  }

  /** **An export replaces only what it examined**: along every run, when an export writes over a file, the file holds
      the very fields the decision was made on, however long ago they were read. */
  lemma ExportReplacesWhatItExamined(states: seq<State>, events: seq<Event>, n: nat, rules: Rules)
    requires Run(states, events, rules) && Fresh(states[0]) && n < |events|
    requires events[n].ExportWrites? && states[n].files != states[n + 1].files
    ensures var x := states[n].exports[events[n].job];
            if x.existing.None? then x.path !in states[n].files
            else x.path in states[n].files && states[n].files[x.path].fields == x.existing.value.fields
  {
    RunKeeps(states, events, n, rules);
    assert CanHappen(states[n], events[n]) && states[n + 1] == Next(states[n], events[n], rules);
    assert ExportHolds(states[n], states[n].exports[events[n].job]);
  }

  lemma TakingKeepsItsBase(s: State, m: Message, answer: Answer, photo: PhotoId, rules: Rules)
    requires photo in s.rows && s.rows[photo].pending.Some?
    requires var after := HandleMessage(s, m, answer, rules);
             Tracked(after, photo, s.rows[photo].path) && after.rows[photo].pending.Some?
    ensures HandleMessage(s, m, answer, rules).rows[photo].base == s.rows[photo].base
    ensures HandleMessage(s, m, answer, rules).rows[photo].stat == s.rows[photo].stat
  {
  }

  /** **A waiting change keeps its base**: whatever happens, as long as a change of the same file waits, the base and
      the stat it is compared at are what they were. */
  lemma WaitingKeepsItsBase(s: State, e: Event, photo: PhotoId, rules: Rules)
    requires CanHappen(s, e) && photo in s.rows && s.rows[photo].pending.Some?
    requires var after := Next(s, e, rules);
             Tracked(after, photo, s.rows[photo].path) && after.rows[photo].pending.Some?
    ensures Next(s, e, rules).rows[photo].base == s.rows[photo].base
    ensures Next(s, e, rules).rows[photo].stat == s.rows[photo].stat
  {
    hide HandleMessage;
    if e.CoordinatorTakes? {
      TakingKeepsItsBase(s.(inbound := s.inbound[1..]), s.inbound[0], e.answer, photo, rules);
    }
  }
}
