// The background jobs that edit many photos (large batches, keyword sweeps, place names) as a protocol: a worker sends
// one item and waits until the coordinator has applied it, commands and cancellations come in between, and the end of a
// job records one step of the journal. A sweep deletes its keywords only when nobody carries them.
module BatchJobs {
  import opened Wrappers
  import opened Vocabulary
  import opened VocabularyEdits
  import opened KeywordIndex
  import opened PhotoMetadata
  import opened PlaceNames
  import opened Journal
  import opened Worlds
  import opened PhotoEdits

  type JobId = nat

  datatype Kind = BatchKind | SweepKind(id: KeywordId, branch: seq<KeywordId>) | PlaceKind

  /** What a worker goes through: an edit to send, or a photo to look up first. */
  datatype Item = Fixed(edit: Edit) | LookUp(photo: PhotoId)

  datatype Look = Skip(why: SkipReason) | Send(edit: Edit)

  datatype SkipReason = HadPlace | NoPosition | OpenWater | Unreadable

  datatype Report = Report(photos: nat, filled: nat, hadPlace: nat, noPosition: nat, openWater: nat, failed: nat)

  /** `sent` is everything it has sent; it `waits` until the coordinator has applied the last of it. */
  datatype Worker = Worker(kind: Kind, items: seq<Item>, looked: nat, sent: seq<Edit>, waits: bool, report: Report)

  /** An item as the coordinator came to apply it: on what, and whether the write it came to succeeded. */
  datatype Taken = Taken(before: Desk, edit: Edit, writes: bool)

  /** What the coordinator keeps of a job; `log` is the history of what it applied. */
  datatype BatchJob = BatchJob(kind: Kind, changes: Entry, noChange: nat, failed: nat, log: seq<Taken>)

  datatype Message = BatchItem(job: JobId, edit: Edit) | JobDone(job: JobId, last: Worker)

  /** `inStep` is whether the catalogue still says what the files do. */
  datatype State = State(
    desk: Desk, workers: map<JobId, Worker>, jobs: map<JobId, BatchJob>, cancelled: set<JobId>,
    inbound: seq<Message>, journal: seq<Entry>, undone: seq<Entry>, reports: map<JobId, Report>, inStep: bool)

  /** `Do` is an edit or a batch of edits as one command, `Reshape` a rename, a move or new properties of a keyword,
      `DeleteKeyword` a deletion with its branch at once, and `Travel` an undo or a redo. */
  datatype Event =
    | StartJob(job: JobId, kind: Kind, items: seq<Item>)
    | WorkerLooks(job: JobId, look: Look)
    | WorkerEnds(job: JobId)
    | CancelJob(job: JobId)
    | CoordinatorTakes(writes: bool)
    | Do(edits: seq<Edit>, writes: bool)
    | Reshape(entry: KeywordEntry)
    | DeleteKeyword(id: KeywordId, branch: seq<KeywordId>, carriers: seq<PhotoId>)
    | Travel(direction: Direction)

  // ---------------------------------------------------------------- one item

  datatype Outcome = Changed(change: Change) | Same | NotApplied

  /** What an edit comes to. */
  function OutcomeOf(a: Taken, fold: string -> string): Outcome {
    if Refusing(a.before, a.edit, fold).Some? || !a.writes then NotApplied
    else if a.edit.CreateKeyword? then
      Changed(VocabularyChange(PlanCreate(a.before.tree, a.edit.name, a.edit.parent, a.edit.id, fold).deltas))
    else
      match ChangeOf(a.before.photos[a.edit.photo], a.edit, PathFor(a.before.tree, a.edit))
      case Some(change) => Changed(change)
      case None => Same
  }

  function DeskAfter(a: Taken, fold: string -> string): Desk {
    if OutcomeOf(a, fold).NotApplied? then a.before else Apply(a.before, a.edit, fold)
  }

  function ChangesOf(log: seq<Taken>, fold: string -> string): Entry {
    if log == [] then []
    else
      ChangesOf(log[..|log| - 1], fold)
      + match OutcomeOf(log[|log| - 1], fold) case Changed(c) => [c] case _ => []
  }

  function Sames(log: seq<Taken>, fold: string -> string): nat {
    if log == [] then 0
    else Sames(log[..|log| - 1], fold) + if OutcomeOf(log[|log| - 1], fold).Same? then 1 else 0
  }

  function Refusals(log: seq<Taken>, fold: string -> string): nat {
    if log == [] then 0
    else Refusals(log[..|log| - 1], fold) + if OutcomeOf(log[|log| - 1], fold).NotApplied? then 1 else 0
  }

  function EditsOf(log: seq<Taken>): (edits: seq<Edit>)
    ensures |edits| == |log| && forall i | 0 <= i < |log| :: edits[i] == log[i].edit
  {
    seq(|log|, i requires 0 <= i < |log| => log[i].edit)
  }

  lemma {:induction false} EveryItemIsCounted(log: seq<Taken>, fold: string -> string)
    ensures |ChangesOf(log, fold)| + Sames(log, fold) + Refusals(log, fold) == |log|
  {
    if log != [] {
      EveryItemIsCounted(log[..|log| - 1], fold);
    }
  }

  /** The desk after edits made one after the other, and what each was made on. */
  function Applied(desk: Desk, edits: seq<Edit>, fold: string -> string): Desk {
    if edits == [] then desk
    else DeskAfter(Taken(Applied(desk, edits[..|edits| - 1], fold), edits[|edits| - 1], true), fold)
  }

  function LogOf(desk: Desk, edits: seq<Edit>, fold: string -> string): seq<Taken> {
    if edits == [] then []
    else
      var front := edits[..|edits| - 1];
      LogOf(desk, front, fold) + [Taken(Applied(desk, front, fold), edits[|edits| - 1], true)]
  }

  /** None of the edits is refused when its turn comes. */
  predicate AllApply(desk: Desk, edits: seq<Edit>, fold: string -> string) {
    forall n | 0 <= n < |edits| :: !OutcomeOf(Taken(Applied(desk, edits[..n], fold), edits[n], true), fold).NotApplied?
  }

  function Logged(record: BatchJob, a: Taken, fold: string -> string): BatchJob {
    var more := record.(log := record.log + [a]);
    match OutcomeOf(a, fold)
    case Changed(change) => more.(changes := record.changes + [change])
    case Same => more.(noChange := record.noChange + 1)
    case NotApplied => more.(failed := record.failed + 1)
  }

  // ---------------------------------------------------------------- the worker

  predicate CanLook(w: Worker, look: Look) {
    && !w.waits && w.looked < |w.items|
    && match w.items[w.looked]
       case Fixed(edit) => look == Send(edit)
       case LookUp(photo) => look.Send? ==> look.edit.FillPlaceNames? && look.edit.photo == photo
  }

  function Looked(w: Worker, look: Look): Worker {
    var one := w.(looked := w.looked + 1, report := w.report.(photos := w.report.photos + 1));
    match look
    case Send(edit) =>
      one.(sent := w.sent + [edit], waits := true, report := one.report.(filled := w.report.filled + 1))
    case Skip(HadPlace) => one.(report := one.report.(hadPlace := w.report.hadPlace + 1))
    case Skip(NoPosition) => one.(report := one.report.(noPosition := w.report.noPosition + 1))
    case Skip(OpenWater) => one.(report := one.report.(openWater := w.report.openWater + 1))
    case Skip(Unreadable) => one.(report := one.report.(failed := w.report.failed + 1))
  }

  function Total(r: Report): nat { r.filled + r.hadPlace + r.noPosition + r.openWater + r.failed }

  /** The edits come from the items, in their order; an edit that is fixed is always sent. */
  predicate MadeFrom(sent: seq<Edit>, items: seq<Item>)
    decreases |items|
  {
    if items == [] then sent == []
    else
      var last, front := items[|items| - 1], items[..|items| - 1];
      || (last.LookUp? && MadeFrom(sent, front))
      || (sent != [] && MadeFrom(sent[..|sent| - 1], front)
          && match last
             case Fixed(edit) => sent[|sent| - 1] == edit
             case LookUp(photo) => sent[|sent| - 1].FillPlaceNames? && sent[|sent| - 1].photo == photo)
  }

  predicate WorkerOk(w: Worker) {
    && w.looked <= |w.items| && MadeFrom(w.sent, w.items[..w.looked])
    && w.report.photos == w.looked == Total(w.report) && w.report.filled == |w.sent|
  }

  /** Of items that are all fixed, a prefix is sent. */
  lemma {:induction false} FixedPrefix(sent: seq<Edit>, items: seq<Item>)
    requires MadeFrom(sent, items) && forall i | 0 <= i < |items| :: items[i].Fixed?
    ensures |sent| == |items| && forall i | 0 <= i < |items| :: sent[i] == items[i].edit
  {
    if items != [] {
      FixedPrefix(sent[..|sent| - 1], items[..|items| - 1]);
    }
  }

  lemma LookingKeeps(w: Worker, look: Look)
    requires WorkerOk(w) && CanLook(w, look)
    ensures WorkerOk(Looked(w, look))
  {
    var items := w.items[..w.looked + 1];
    assert items[..|items| - 1] == w.items[..w.looked];
    if look.Send? {
      assert (w.sent + [look.edit])[..|w.sent|] == w.sent;
    }
  }

  // ---------------------------------------------------------------- the steps

  /** Whether a keyword that stays hangs from one of a branch that goes: the catalogue then refuses the removal. */
  predicate KeptUnder(tree: Tree, branch: seq<KeywordId>) {
    exists k :: k in tree && k !in branch && tree[k].parent.Some? && tree[k].parent.value in branch
      && tree[k].parent.value in tree
  }

  /** The step a finished sweep adds to what it took off the photos. */
  function Deletion(desk: Desk, branch: seq<KeywordId>): Entry {
    if NoneCarried(desk.photos, branch) && (exists k :: k in branch && k in desk.tree) && !KeptUnder(desk.tree, branch)
    then [VocabularyChange(DeleteDeltas(desk.tree, branch))] else []
  }

  /** The vocabulary after a sweep; the file is written before the catalogue can refuse. */
  function TreeAfter(desk: Desk, branch: seq<KeywordId>): Tree {
    if NoneCarried(desk.photos, branch) then desk.tree - (set k | k in branch) else desk.tree
  }

  function EntryOf(desk: Desk, record: BatchJob): Entry {
    record.changes + if record.kind.SweepKind? then Deletion(desk, record.kind.branch) else []
  }

  function FinalReport(w: Worker, record: BatchJob): Report {
    w.report.(filled := |record.changes|, hadPlace := w.report.hadPlace + record.noChange,
              failed := w.report.failed + record.failed)
  }

  function Recorded(journal: seq<Entry>, entry: Entry): seq<Entry> {
    if entry == [] then journal else journal + [entry]
  }

  /** A new step of the journal; what was undone can then no longer be redone. */
  function Record(s: State, entry: Entry): State {
    s.(journal := Recorded(s.journal, entry), undone := if entry == [] then s.undone else [])
  }

  function Finish(s: State, job: JobId, w: Worker): State
    requires job in s.jobs
  {
    var record := s.jobs[job];
    Record(s, EntryOf(s.desk, record)).(
      desk := if record.kind.SweepKind? then s.desk.(tree := TreeAfter(s.desk, record.kind.branch)) else s.desk,
      jobs := s.jobs - {job}, cancelled := s.cancelled - {job},
      reports := if record.kind.PlaceKind? then s.reports[job := FinalReport(w, record)] else s.reports)
  }

  /** The photos that carry any of a branch, each once. */
  ghost predicate AreCarriers(photos: map<PhotoId, Metadata>, branch: seq<KeywordId>, carriers: seq<PhotoId>) {
    && (forall i, j | 0 <= i < j < |carriers| :: carriers[i] != carriers[j])
    && forall p :: p in carriers <==> p in photos && exists k :: k in photos[p].keywordIds && k in branch
  }

  /** The edits that take a branch off photos. */
  function Removals(carriers: seq<PhotoId>, branch: seq<KeywordId>): (edits: seq<Edit>)
    ensures |edits| == |carriers|
  {
    seq(|carriers|, i requires 0 <= i < |carriers| => RemoveKeywords(carriers[i], branch))
  }

  /** What a job starts with: a batch has more edits than are done at once, a sweep takes a whole branch off whoever
      carries any of it, and the place names look up photos. */
  ghost predicate Starts(desk: Desk, kind: Kind, items: seq<Item>) {
    match kind
    case BatchKind => |items| > BACKGROUND_THRESHOLD && forall i | 0 <= i < |items| :: items[i].Fixed?
    case SweepKind(id, branch) =>
      && id in desk.tree && IsBranch(desk.tree, id, branch)
      && exists carriers :: AreCarriers(desk.photos, branch, carriers) && Sends(items, Removals(carriers, branch))
    case PlaceKind => forall i | 0 <= i < |items| :: items[i].LookUp?
  }

  /** The items are these edits, in this order. */
  predicate Sends(items: seq<Item>, edits: seq<Edit>) {
    |items| == |edits| && forall i | 0 <= i < |items| :: items[i] == Fixed(edits[i])
  }

  // ---------------------------------------------------------------- undo and redo

  /** One change of a step, in either direction. */
  function StepDesk(desk: Desk, change: Change, direction: Direction): Desk {
    match change
    case VocabularyChange(deltas) => desk.(tree := Overlay(desk.tree, deltas, direction))
    case CollectionsChange(_) => desk
    case SeriesChange(_, _, _) => desk
    case _ =>
      if change.photo in desk.photos
      then desk.(photos := desk.photos[change.photo := ApplyChange(change, desk.photos[change.photo], direction)])
      else desk
  }

  /** The changes of a step in the order they are made: an undo takes the newest first. */
  function Ordered(entry: Entry, direction: Direction): (ordered: Entry)
    ensures |ordered| == |entry|
  {
    if direction == Undo then seq(|entry|, i requires 0 <= i < |entry| => entry[|entry| - 1 - i]) else entry
  }

  function Travelled(desk: Desk, changes: Entry, direction: Direction): Desk {
    if changes == [] then desk
    else StepDesk(Travelled(desk, changes[..|changes| - 1], direction), changes[|changes| - 1], direction)
  }

  /** The catalogue refuses what a change came to, when its file is written: a keyword whose parent is not there, or a
      photo with a keyword that is not there. */
  predicate CatalogueRefuses(after: Desk, change: Change) {
    match PhotoOf(change)
    case Some(p) => p in after.photos && exists k :: k in after.photos[p].keywordIds && k !in after.tree
    case None => change.VocabularyChange? && !NoMissingParent(after.tree)
  }

  /** The changes of a step that are written, and whether the last of them was refused: a step stops there. */
  function Written(desk: Desk, changes: Entry, direction: Direction): (written: (Entry, bool)) {
    if changes == [] then ([], false)
    else
      var front, last := Written(desk, changes[..|changes| - 1], direction), changes[|changes| - 1];
      if front.1 then front
      else (front.0 + [last], CatalogueRefuses(Travelled(desk, front.0 + [last], direction), last))
  }

  /** A step about photos alone is dropped when one of them is not there. */
  predicate Drops(desk: Desk, entry: Entry) {
    && !HasStateChange(entry)
    && exists i :: 0 <= i < |entry| && PhotoOf(entry[i]).Some? && PhotoOf(entry[i]).value !in desk.photos
  }

  function StackOf(s: State, direction: Direction): seq<Entry> { if direction == Undo then s.journal else s.undone }

  /** The step an undo or a redo takes. */
  function TakenStep(s: State, direction: Direction): Entry
    requires StackOf(s, direction) != []
  {
    StackOf(s, direction)[|StackOf(s, direction)| - 1]
  }

  /** A step that is made goes to the other stack; one that is dropped, or stopped half way, is on neither. */
  function AfterTravel(s: State, direction: Direction): State
    requires StackOf(s, direction) != []
  {
    var entry, left := TakenStep(s, direction), StackOf(s, direction)[..|StackOf(s, direction)| - 1];
    var rest := if direction == Undo then s.(journal := left) else s.(undone := left);
    if Drops(s.desk, entry) then rest
    else
      var written := Written(s.desk, Ordered(entry, direction), direction);
      var moved := rest.(desk := Travelled(s.desk, written.0, direction),
                         inStep := s.inStep && AllKnownAlong(s.desk, written.0, direction));
      if written.1 then moved
      else if direction == Undo then moved.(undone := s.undone + [entry])
      else moved.(journal := s.journal + [entry])
  }

  // ---------------------------------------------------------------- the catalogue in step

  /** Every keyword a photo carries is in the vocabulary. */
  predicate AllKnown(desk: Desk) {
    forall p | p in desk.photos :: forall k | k in desk.photos[p].keywordIds :: k in desk.tree
  }

  predicate AllKnownAlong(desk: Desk, changes: Entry, direction: Direction) {
    forall n | 0 <= n <= |changes| :: AllKnown(Travelled(desk, changes[..n], direction))
  }

  /** The catalogue has a row for every keyword and every photo's keywords. It loses step when it refuses what a file
      says already, or when a row goes that a photo still names. */
  predicate InStep(s: State) { s.inStep && AllKnown(s.desk) && NoMissingParent(s.desk.tree) }

  function Checked(s: State): State { s.(inStep := InStep(s)) }

  // ---------------------------------------------------------------- the events

  ghost predicate CanHappen(s: State, e: Event) {
    match e
    case StartJob(job, kind, items) => job !in s.jobs && Starts(s.desk, kind, items)
    case WorkerLooks(job, look) => job in s.workers && job !in s.cancelled && CanLook(s.workers[job], look)
    case WorkerEnds(job) =>
      && job in s.workers && !s.workers[job].waits
      && (job in s.cancelled || s.workers[job].looked == |s.workers[job].items|)
    case CancelJob(job) => true
    case CoordinatorTakes(_) => s.inbound != []
    case Do(edits, _) => |edits| <= BACKGROUND_THRESHOLD
    case Reshape(entry) => entry.id in s.desk.tree && (entry.parent.Some? ==> entry.parent.value in s.desk.tree)
    case DeleteKeyword(id, branch, carriers) =>
      id in s.desk.tree && IsBranch(s.desk.tree, id, branch) && AreCarriers(s.desk.photos, branch, carriers)
    case Travel(direction) => StackOf(s, direction) != []
  }

  function Next(s: State, e: Event, fold: string -> string): State
    requires CanHappen(s, e)
  {
    Checked(Moved(s, e, fold))
  }

  function Moved(s: State, e: Event, fold: string -> string): State
    requires CanHappen(s, e)
  {
    match e
    case StartJob(job, kind, items) =>
      s.(workers := s.workers[job := Worker(kind, items, 0, [], false, Report(0, 0, 0, 0, 0, 0))],
         jobs := s.jobs[job := BatchJob(kind, [], 0, 0, [])])
    case WorkerLooks(job, look) =>
      s.(workers := s.workers[job := Looked(s.workers[job], look)],
         inbound := s.inbound + match look case Send(edit) => [BatchItem(job, edit)] case Skip(_) => [])
    case WorkerEnds(job) =>
      s.(workers := s.workers - {job}, inbound := s.inbound + [JobDone(job, s.workers[job])])
    case CancelJob(job) => if job in s.jobs then s.(cancelled := s.cancelled + {job}) else s
    case CoordinatorTakes(writes) => AfterMessage(s.(inbound := s.inbound[1..]), s.inbound[0], writes, fold)
    case Do(edits, writes) =>
      if writes && AllApply(s.desk, edits, fold)
      then Record(s, ChangesOf(LogOf(s.desk, edits, fold), fold)).(desk := Applied(s.desk, edits, fold))
      else s
    case Reshape(entry) =>
      var delta := KeywordDelta(entry.id, Some(s.desk.tree[entry.id]), Some(entry));
      Record(s, [VocabularyChange([delta])]).(desk := s.desk.(tree := s.desk.tree[entry.id := entry]))
    case DeleteKeyword(_, branch, carriers) =>
      var removals := Removals(carriers, branch);
      var swept := Applied(s.desk, removals, fold);
      var changes := ChangesOf(LogOf(s.desk, removals, fold), fold);
      Record(s, changes + [VocabularyChange(DeleteDeltas(s.desk.tree, branch))]).(
        desk := swept.(tree := swept.tree - set k | k in branch))
    case Travel(direction) => AfterTravel(s, direction)
  }

  function AfterMessage(s: State, m: Message, writes: bool, fold: string -> string): State {
    match m
    case BatchItem(job, edit) =>
      var a := Taken(s.desk, edit, writes);
      var told := if job in s.workers then s.(workers := s.workers[job := s.workers[job].(waits := false)]) else s;
      if job in s.jobs
      then told.(desk := DeskAfter(a, fold), jobs := s.jobs[job := Logged(s.jobs[job], a, fold)])
      else told.(desk := DeskAfter(a, fold))
    case JobDone(job, w) => if job in s.jobs then Finish(s, job, w) else s
  }

  // ---------------------------------------------------------------- pacing

  /** The messages of one job that are on their way. */
  function Mail(inbound: seq<Message>, job: JobId): seq<Message> {
    if inbound == [] then []
    else (if inbound[0].job == job then [inbound[0]] else []) + Mail(inbound[1..], job)
  }

  lemma Regrouped(a: seq<Message>, b: seq<Message>, c: seq<Message>)
    ensures a + (b + c) == (a + b) + c
  {
  }

  lemma {:induction false} MailMore(inbound: seq<Message>, m: Message, job: JobId)
    ensures Mail(inbound + [m], job) == Mail(inbound, job) + if m.job == job then [m] else []
  {
    if inbound == [] {
      assert [] + [m] == [m];
    } else {
      assert (inbound + [m])[1..] == inbound[1..] + [m] && (inbound + [m])[0] == inbound[0];
      MailMore(inbound[1..], m, job);
      Regrouped(if inbound[0].job == job then [inbound[0]] else [], Mail(inbound[1..], job),
                if m.job == job then [m] else []);
    }
  }

  /** What the coordinator keeps of a job says exactly what it applied. */
  predicate Books(record: BatchJob, fold: string -> string) {
    && record.changes == ChangesOf(record.log, fold)
    && record.noChange == Sames(record.log, fold) && record.failed == Refusals(record.log, fold)
  }

  /** A worker that waits has one item on its way and everything before it applied; one that does not has none. */
  predicate Paced(w: Worker, record: BatchJob, mail: seq<Message>, job: JobId) {
    && WorkerOk(w) && w.kind == record.kind
    && if w.waits
       then && w.sent != [] && mail == [BatchItem(job, w.sent[|w.sent| - 1])]
            && EditsOf(record.log) == w.sent[..|w.sent| - 1]
       else mail == [] && EditsOf(record.log) == w.sent
  }

  /** A worker that ended left its last message, with everything it sent applied. */
  predicate Ended(record: BatchJob, mail: seq<Message>) {
    && |mail| == 1 && mail[0].JobDone? && WorkerOk(mail[0].last) && mail[0].last.kind == record.kind
    && EditsOf(record.log) == mail[0].last.sent
  }

  predicate OnTrack(s: State, job: JobId, fold: string -> string) {
    if job in s.jobs then
      && Books(s.jobs[job], fold)
      && if job in s.workers then Paced(s.workers[job], s.jobs[job], Mail(s.inbound, job), job)
         else Ended(s.jobs[job], Mail(s.inbound, job))
    else job !in s.workers && Mail(s.inbound, job) == []
  }

  lemma LoggedKeepsBooks(record: BatchJob, a: Taken, fold: string -> string)
    requires Books(record, fold)
    ensures Books(Logged(record, a, fold), fold) && EditsOf(Logged(record, a, fold).log) ==
              EditsOf(record.log) + [a.edit]
  {
    hide OutcomeOf, EditsOf, ChangesOf, Sames, Refusals;
    CountsMore(record.log, a, fold);
    EditsMore(record.log, a);
    assert record.changes + [] == record.changes;
  }

  lemma CountsMore(log: seq<Taken>, a: Taken, fold: string -> string)
    ensures ChangesOf(log + [a], fold) ==
            ChangesOf(log, fold) + match OutcomeOf(a, fold) case Changed(c) => [c] case _ => []
    ensures Sames(log + [a], fold) == Sames(log, fold) + if OutcomeOf(a, fold).Same? then 1 else 0
    ensures Refusals(log + [a], fold) == Refusals(log, fold) + if OutcomeOf(a, fold).NotApplied? then 1 else 0
  {
    hide OutcomeOf;
    assert (log + [a])[..|log|] == log;
  }

  lemma EditsMore(log: seq<Taken>, a: Taken)
    ensures EditsOf(log + [a]) == EditsOf(log) + [a.edit]
  {
  }

  lemma LookingStaysOnTrack(s: State, e: Event, job: JobId, fold: string -> string)
    requires OnTrack(s, job, fold) && e.WorkerLooks? && CanHappen(s, e)
    ensures OnTrack(Next(s, e, fold), job, fold)
  {
    hide InStep, WorkerOk, Books, Mail, EditsOf, AfterMessage, AfterTravel, Applied, LogOf, ChangesOf, AllApply,
      DeleteDeltas, IsBranch, AreCarriers, Starts, Removals, Record;
    if e.look.Send? {
      MailMore(s.inbound, BatchItem(e.job, e.look.edit), job);
    } else {
      assert s.inbound + [] == s.inbound;
    }
    if e.job == job {
      LookingKeeps(s.workers[job], e.look);
      if e.look.Send? {
        assert (s.workers[job].sent + [e.look.edit])[..|s.workers[job].sent|] == s.workers[job].sent;
        assert [] + [BatchItem(job, e.look.edit)] == [BatchItem(job, e.look.edit)];
      }
    }
  }

  lemma EndingStaysOnTrack(s: State, e: Event, job: JobId, fold: string -> string)
    requires OnTrack(s, job, fold) && e.WorkerEnds? && CanHappen(s, e)
    ensures OnTrack(Next(s, e, fold), job, fold)
  {
    hide InStep, WorkerOk, Books, Mail, EditsOf;
    var m := JobDone(e.job, s.workers[e.job]);
    MailMore(s.inbound, m, job);
    assert [] + [m] == [m];
  }

  lemma TakingStaysOnTrack(s: State, e: Event, job: JobId, fold: string -> string)
    requires OnTrack(s, job, fold) && e.CoordinatorTakes? && CanHappen(s, e)
    ensures OnTrack(Next(s, e, fold), job, fold)
  {
    hide OnTrack, Next, Mail, EditsOf;
    var m := s.inbound[0];
    FirstMail(s.inbound, job);
    if m.job != job {
      TakingAnothers(s, e, job, fold);
    } else if m.BatchItem? {
      TakingAnItem(s, e, job, fold);
    } else {
      TakingTheLast(s, e, job, fold);
    }
  }

  lemma FirstMail(inbound: seq<Message>, job: JobId)
    requires inbound != []
    ensures Mail(inbound, job) == if inbound[0].job == job then [inbound[0]] + Mail(inbound[1..], job)
            else Mail(inbound[1..], job)
  {
  }

  lemma TakingAnothers(s: State, e: Event, job: JobId, fold: string -> string)
    requires OnTrack(s, job, fold) && e.CoordinatorTakes? && CanHappen(s, e)
    requires s.inbound[0].job != job && Mail(s.inbound, job) == Mail(s.inbound[1..], job)
    ensures OnTrack(Next(s, e, fold), job, fold)
  {
    hide InStep, Paced, Ended, Books, Mail, EditsOf, OutcomeOf, DeskAfter, Logged, EntryOf, FinalReport, TreeAfter,
      Recorded;
  }

  lemma TakingTheLast(s: State, e: Event, job: JobId, fold: string -> string)
    requires OnTrack(s, job, fold) && e.CoordinatorTakes? && CanHappen(s, e) && s.inbound[0].JobDone?
    requires s.inbound[0].job == job && Mail(s.inbound, job) == [s.inbound[0]] + Mail(s.inbound[1..], job)
    ensures OnTrack(Next(s, e, fold), job, fold)
  {
    hide InStep, WorkerOk, Books, Mail, EditsOf, OutcomeOf, DeskAfter, Logged, EntryOf, FinalReport, TreeAfter,
      Recorded;
    assert Mail(s.inbound, job)[0] == s.inbound[0];
    assert Mail(s.inbound, job)[1..] == Mail(s.inbound[1..], job);
  }

  lemma TakingAnItem(s: State, e: Event, job: JobId, fold: string -> string)
    requires OnTrack(s, job, fold) && e.CoordinatorTakes? && CanHappen(s, e)
    requires s.inbound[0].BatchItem? && s.inbound[0].job == job
             && Mail(s.inbound, job) == [s.inbound[0]] + Mail(s.inbound[1..], job)
    ensures OnTrack(Next(s, e, fold), job, fold)
  {
    hide InStep, WorkerOk, Books, Mail, EditsOf, OutcomeOf, ChangesOf, Sames, Refusals;
    var m := s.inbound[0];
    assert Mail(s.inbound, job)[0] == m;
    assert job in s.jobs && job in s.workers;
    var w, a := s.workers[job], Taken(s.desk, m.edit, e.writes);
    assert w.waits && w.sent[|w.sent| - 1] == m.edit;
    assert w.sent == w.sent[..|w.sent| - 1] + [m.edit];
    assert Mail(s.inbound[1..], job) == [];
    LoggedKeepsBooks(s.jobs[job], a, fold);
    NotWaiting(w);
  }

  lemma NotWaiting(w: Worker)
    requires WorkerOk(w)
    ensures WorkerOk(w.(waits := false))
  {
  }

  lemma StartingStaysOnTrack(s: State, e: Event, job: JobId, fold: string -> string)
    requires OnTrack(s, job, fold) && CanHappen(s, e) && e.StartJob?
    ensures OnTrack(Next(s, e, fold), job, fold)
  {
    hide InStep, Mail, OutcomeOf, DeskAfter, Starts;
  }

  /** What is no job's business leaves every job where it was. */
  lemma OthersTouchNoJob(s: State, e: Event, fold: string -> string)
    requires CanHappen(s, e) && (e.CancelJob? || e.Do? || e.Reshape? || e.DeleteKeyword? || e.Travel?)
    ensures Next(s, e, fold).jobs == s.jobs && Next(s, e, fold).workers == s.workers
            && Next(s, e, fold).inbound == s.inbound
  {
    hide InStep, OutcomeOf, DeskAfter, Applied, LogOf, AllApply, AfterTravel, ChangesOf, DeleteDeltas, IsBranch, Starts,
      AreCarriers, Removals;
    if e.Travel? {
      TravelTouchesNoJob(s, e.direction);
    }
  }

  lemma TravelTouchesNoJob(s: State, direction: Direction)
    requires StackOf(s, direction) != []
    ensures var t := AfterTravel(s, direction);
            t.jobs == s.jobs && t.workers == s.workers && t.inbound == s.inbound && t.cancelled == s.cancelled
  {
    hide Travelled, Written, Drops, AllKnownAlong, TakenStep;
  }

  lemma OthersStayOnTrack(s: State, e: Event, job: JobId, fold: string -> string)
    requires OnTrack(s, job, fold) && CanHappen(s, e)
    requires e.CancelJob? || e.Do? || e.Reshape? || e.DeleteKeyword? || e.Travel?
    ensures OnTrack(Next(s, e, fold), job, fold)
  {
    hide Next, CanHappen, Mail, Books, Paced, Ended;
    OthersTouchNoJob(s, e, fold);
  }

  /** **Every event keeps every job on its track**: at most one item of it is unacknowledged, nothing follows its last
      message, and what was applied is what was sent, in order. */
  lemma StaysOnTrack(s: State, e: Event, job: JobId, fold: string -> string)
    requires OnTrack(s, job, fold) && CanHappen(s, e)
    ensures OnTrack(Next(s, e, fold), job, fold)
  {
    hide OnTrack, Next, CanHappen;
    match e
    case WorkerLooks(_, _) => LookingStaysOnTrack(s, e, job, fold);
    case WorkerEnds(_) => EndingStaysOnTrack(s, e, job, fold);
    case CoordinatorTakes(_) => TakingStaysOnTrack(s, e, job, fold);
    case StartJob(_, _, _) => StartingStaysOnTrack(s, e, job, fold);
    case _ => OthersStayOnTrack(s, e, job, fold);
  }

  // ---------------------------------------------------------------- runs

  ghost predicate Run(states: seq<State>, events: seq<Event>, fold: string -> string) {
    && |states| == |events| + 1
    && forall n | 0 <= n < |events| ::
        CanHappen(states[n], events[n]) && states[n + 1] == Next(states[n], events[n], fold)
  }

  lemma RunAt(states: seq<State>, events: seq<Event>, n: nat, fold: string -> string)
    requires Run(states, events, fold) && n < |events|
    ensures |states| == |events| + 1
    ensures CanHappen(states[n], events[n]) && states[n + 1] == Next(states[n], events[n], fold)
  {
    hide Next, CanHappen;
  }

  predicate NoJobs(s: State) { s.workers == map[] && s.jobs == map[] && s.inbound == [] }

  lemma {:induction false} AlwaysOnTrack(states: seq<State>, events: seq<Event>, n: nat, job: JobId,
                                         fold: string -> string)
    requires Run(states, events, fold) && NoJobs(states[0]) && n <= |events|
    ensures OnTrack(states[n], job, fold)
  {
    if n > 0 {
      AlwaysOnTrack(states, events, n - 1, job, fold);
      hide OnTrack, Next, CanHappen;
      StaysOnTrack(states[n - 1], events[n - 1], job, fold);
    }
  }

  /** **One item at a time**: in every reachable state a job has at most one message on its way, so a cancellation waits
      for no more than one item. */
  lemma OneItemAtATime(states: seq<State>, events: seq<Event>, n: nat, job: JobId, fold: string -> string)
    requires Run(states, events, fold) && NoJobs(states[0]) && n <= |events|
    ensures |Mail(states[n].inbound, job)| <= 1
    ensures job in states[n].workers ==>
              job in states[n].jobs &&
              |states[n].workers[job].sent| - |states[n].jobs[job].log| == |Mail(states[n].inbound, job)|
  {
    AlwaysOnTrack(states, events, n, job, fold);
    var s := states[n];
    if job in s.workers && s.workers[job].waits {
      assert |EditsOf(s.jobs[job].log)| == |s.workers[job].sent| - 1;
    }
  }

  /** **A job's step is what it applied**: at its end the journal gains the changes its items made, in order; the items
      are everything it sent, which for a batch or a sweep is a prefix of its edits, cancelled or not. */
  lemma EndRecordsWhatWasApplied(s: State, writes: bool, fold: string -> string)
    requires s.inbound != [] && s.inbound[0].JobDone?
    requires forall job :: OnTrack(s, job, fold)
    ensures var job, w := s.inbound[0].job, s.inbound[0].last;
            && job in s.jobs && EditsOf(s.jobs[job].log) == w.sent
            && w.looked <= |w.items| && MadeFrom(w.sent, w.items[..w.looked])
            && Next(s, CoordinatorTakes(writes), fold).journal ==
               Recorded(s.journal, ChangesOf(s.jobs[job].log, fold)
                                   + if w.kind.SweepKind? then Deletion(s.desk, w.kind.branch) else [])
            && ((forall i | 0 <= i < |w.items| :: w.items[i].Fixed?) ==>
                  |w.sent| == w.looked && forall i | 0 <= i < w.looked :: w.sent[i] == w.items[i].edit)
  {
    hide InStep, Deletion, TreeAfter, FinalReport, OutcomeOf, EditsOf;
    var job, w := s.inbound[0].job, s.inbound[0].last;
    DoneIsLast(s, fold);
    if forall i | 0 <= i < |w.items| :: w.items[i].Fixed? {
      FixedPrefix(w.sent, w.items[..w.looked]);
    }
  }

  lemma DoneIsLast(s: State, fold: string -> string)
    requires s.inbound != [] && s.inbound[0].JobDone? && OnTrack(s, s.inbound[0].job, fold)
    ensures var job, w := s.inbound[0].job, s.inbound[0].last;
            && job in s.jobs && job !in s.workers && Books(s.jobs[job], fold) && WorkerOk(w)
            && w.kind == s.jobs[job].kind
            && EditsOf(s.jobs[job].log) == w.sent
  {
    hide InStep, Books, WorkerOk, EditsOf;
    assert Mail(s.inbound, s.inbound[0].job)[0] == s.inbound[0];
  }

  /** **The report adds up**: every photo looked at is counted once, as filled, as having its places, as without a
      position, as in open water or as failed, whatever happened to it between the look and the write. */
  lemma ReportAddsUp(s: State, writes: bool, fold: string -> string)
    requires s.inbound != [] && s.inbound[0].JobDone? && s.inbound[0].last.kind.PlaceKind?
    requires OnTrack(s, s.inbound[0].job, fold)
    ensures var job := s.inbound[0].job; var after := Next(s, CoordinatorTakes(writes), fold);
            && job in after.reports && after.reports[job].photos == Total(after.reports[job]) ==
                s.inbound[0].last.looked
            && job in s.jobs && after.reports[job].filled == |ChangesOf(s.jobs[job].log, fold)|
  {
    hide InStep, TreeAfter, EntryOf, ChangesOf, Sames, Refusals, OutcomeOf, MadeFrom;
    DoneIsLast(s, fold);
    var job := s.inbound[0].job;
    EveryItemIsCounted(s.jobs[job].log, fold);
    assert |EditsOf(s.jobs[job].log)| == |s.inbound[0].last.sent|;
  }
}
