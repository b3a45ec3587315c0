// Three complete runs of the background jobs: an undo that leaves a keyword dangling, an undo that the catalogue stops
// half way, and a sweep that leaves a keyword without its parent.
module BatchJobRuns {
  import opened Wrappers
  import opened Text
  import opened Vocabulary
  import opened VocabularyEdits
  import opened KeywordIndex
  import opened PhotoMetadata
  import opened Journal
  import opened PhotoEdits
  import opened BatchJobs
  import opened BatchJobKeywords

  const TOP := KeywordEntry(1, "a", None, [], true)
  const BELOW := KeywordEntry(2, "b", Some(1), [], true)
  const HANGING := KeywordEntry(3, "c", Some(2), [], true)

  /** A photo with nothing but these keywords. */
  function With(ids: seq<KeywordId>, paths: seq<string>): Metadata {
    Metadata(None, None, None, ids, paths, map[], map[], [], None)
  }

  function Idle(photos: map<PhotoId, Metadata>, tree: Tree): State {
    State(Desk(photos, tree), map[], map[], {}, [], [], [], map[], true)
  }

  function MadeChange(entry: KeywordEntry): Change { VocabularyChange([KeywordDelta(entry.id, None, Some(entry))]) }

  function Made(entry: KeywordEntry): Entry { [MadeChange(entry)] }

  function Create(entry: KeywordEntry): Edit { CreateKeyword(entry.name, entry.parent, entry.id) }

  /** A batch that starts with these edits, with as many more as make it run in the background. */
  function Batch(edits: seq<Edit>): (items: seq<Item>)
    ensures |items| == |edits| + BACKGROUND_THRESHOLD
    ensures forall i | 0 <= i < |edits| :: items[i] == Fixed(edits[i])
    ensures forall i | 0 <= i < |items| :: items[i].Fixed?
  {
    seq(|edits| + BACKGROUND_THRESHOLD, i requires i >= 0 => Fixed(if i < |edits| then edits[i] else SetRating(7, 0)))
  }

  // ---------------------------------------------------------------- single steps

  /** An event that leaves the catalogue in step leaves what it moves. */
  lemma StaysChecked(s: State)
    requires InStep(s)
    ensures Checked(s) == s
  {
  }

  /** A keyword with a plain name, made where its parent has no other. */
  ghost predicate Makes(desk: Desk, entry: KeywordEntry) {
    && entry.id !in desk.tree && entry.name != "" && Trim(entry.name) == entry.name && '|' !in entry.name
    && entry.synonyms == [] && entry.exported && (entry.parent.Some? ==> entry.parent.value in desk.tree)
    && forall k | k in desk.tree :: Fits(desk.tree[k], entry)
  }

  predicate Fits(other: KeywordEntry, entry: KeywordEntry) { other.parent != entry.parent }

  lemma CreateChanges(desk: Desk, entry: KeywordEntry, fold: string -> string)
    requires Makes(desk, entry)
    ensures OutcomeOf(Taken(desk, Create(entry), true), fold) == Changed(MadeChange(entry))
    ensures Apply(desk, Create(entry), fold) == desk.(tree := desk.tree[entry.id := entry])
  {
    var delta := KeywordDelta(entry.id, None, Some(entry));
    assert entry == KeywordEntry(entry.id, entry.name, entry.parent, [], true);
    assert forall k | k in desk.tree :: !(desk.tree[k].parent == entry.parent);
    assert PlanCreate(desk.tree, entry.name, entry.parent, entry.id, fold) == Deltas([delta]);
    OverlayOne(desk.tree, delta, Redo);
  }

  /** A command of one edit that changes something. */
  lemma OneGoes(s: State, edit: Edit, change: Change, fold: string -> string)
    requires OutcomeOf(Taken(s.desk, edit, true), fold) == Changed(change)
             && InStep(s.(desk := Apply(s.desk, edit, fold)))
    ensures CanHappen(s, Do([edit], true))
    ensures Next(s, Do([edit], true), fold) ==
            s.(desk := Apply(s.desk, edit, fold), journal := s.journal + [[change]], undone := [])
  {
    hide OutcomeOf, Apply, Applied, ChangesOf, LogOf, AllApply, AllKnown, NoMissingParent, Checked, Next, CanHappen;
    OneEdit(s.desk, edit, change, fold);
    StaysChecked(s.(desk := Apply(s.desk, edit, fold), journal := s.journal + [[change]], undone := []));
    DoGoes(s, [edit], fold);
  }

  lemma DoGoes(s: State, edits: seq<Edit>, fold: string -> string)
    requires |edits| <= BACKGROUND_THRESHOLD && AllApply(s.desk, edits, fold)
    ensures CanHappen(s, Do(edits, true))
    ensures Next(s, Do(edits, true), fold) ==
            Checked(Record(s, ChangesOf(LogOf(s.desk, edits, fold), fold)).(desk := Applied(s.desk, edits, fold)))
  {
    hide OutcomeOf, Apply, Applied, ChangesOf, LogOf, AllApply, Checked, Record;
  }

  lemma OneEdit(desk: Desk, edit: Edit, change: Change, fold: string -> string)
    requires OutcomeOf(Taken(desk, edit, true), fold) == Changed(change)
    ensures AllApply(desk, [edit], fold) && Applied(desk, [edit], fold) == Apply(desk, edit, fold)
    ensures ChangesOf(LogOf(desk, [edit], fold), fold) == [change]
  {
    hide OutcomeOf, Apply;
    var log := [Taken(desk, edit, true)];
    assert [edit][..0] == [] && log[..0] == [] && ChangesOf(log[..0], fold) == [];
    assert LogOf(desk, [edit], fold) == log;
  }

  /** A worker sends its next edit. */
  lemma SendGoes(s: State, w: Worker, edit: Edit, fold: string -> string)
    requires s.workers == map[0 := w] && s.cancelled == {} && s.inbound == [] && InStep(s)
    requires !w.waits && w.looked < |w.items| && w.items[w.looked] == Fixed(edit)
    ensures CanHappen(s, WorkerLooks(0, Send(edit)))
    ensures Next(s, WorkerLooks(0, Send(edit)), fold) ==
            s.(workers := map[0 := Looked(w, Send(edit))], inbound := [BatchItem(0, edit)])
  {
    hide AllKnown, NoMissingParent;
    assert s.inbound + [BatchItem(0, edit)] == [BatchItem(0, edit)];
    assert s.workers[0 := Looked(w, Send(edit))] == map[0 := Looked(w, Send(edit))];
  }

  /** The coordinator applies the one item on its way. */
  lemma ApplyGoes(s: State, w: Worker, record: BatchJob, edit: Edit, change: Change, fold: string -> string)
    requires s.workers == map[0 := w] && s.inbound == [BatchItem(0, edit)] && s.jobs == map[0 := record]
    requires OutcomeOf(Taken(s.desk, edit, true), fold) == Changed(change)
             && InStep(s.(desk := Apply(s.desk, edit, fold)))
    ensures CanHappen(s, CoordinatorTakes(true))
    ensures Next(s, CoordinatorTakes(true), fold) ==
            s.(desk := Apply(s.desk, edit, fold), inbound := [], workers := map[0 := w.(waits := false)],
               jobs := map[0 := record.(changes := record.changes + [change],
                                        log := record.log + [Taken(s.desk, edit, true)])])
  {
    hide OutcomeOf, Apply, AllKnown, NoMissingParent;
    assert s.inbound[1..] == [];
    assert s.workers[0 := w.(waits := false)] == map[0 := w.(waits := false)];
    var logged := Logged(record, Taken(s.desk, edit, true), fold);
    assert s.jobs[0 := logged] == map[0 := logged];
  }

  /** A worker that has sent nothing yet, and its job. */
  function Fresh(kind: Kind, items: seq<Item>): Worker { Worker(kind, items, 0, [], false, Report(0, 0, 0, 0, 0, 0)) }

  function Open(kind: Kind): BatchJob { BatchJob(kind, [], 0, 0, []) }

  lemma StartGoes(s: State, kind: Kind, items: seq<Item>, fold: string -> string)
    requires s.jobs == map[] && s.workers == map[] && Starts(s.desk, kind, items) && InStep(s)
    ensures CanHappen(s, StartJob(0, kind, items))
    ensures Next(s, StartJob(0, kind, items), fold) ==
            s.(workers := map[0 := Fresh(kind, items)], jobs := map[0 := Open(kind)])
  {
    hide Starts, AllKnown, NoMissingParent;
  }

  /** Photo 7 gains the first keyword. */
  function Gain(tree: Tree): Change
    requires 1 in tree
  {
    KeywordsChange(7, KeywordSet([], []), KeywordSet([1], [PathOf(tree, 1)]))
  }

  lemma AddChanges(tree: Tree, fold: string -> string)
    requires 1 in tree
    ensures OutcomeOf(Taken(Desk(map[7 := With([], [])], tree), AddKeyword(7, 1), true), fold) == Changed(Gain(tree))
    ensures Apply(Desk(map[7 := With([], [])], tree), AddKeyword(7, 1), fold) ==
            Desk(map[7 := With([1], [PathOf(tree, 1)])], tree)
  {
    hide PathOf;
    assert [] + [1] == [1] && [] + [PathOf(tree, 1)] == [PathOf(tree, 1)];
    assert map[7 := With([], [])][7 := With([1], [PathOf(tree, 1)])] == map[7 := With([1], [PathOf(tree, 1)])];
  }

  lemma Consecutive(s: seq<State>, e: seq<Event>, fold: string -> string)
    requires |s| == |e| + 1 && forall n | 0 <= n < |e| :: Follows(s, e, n, fold)
    ensures Run(s, e, fold)
  {
    hide Next, CanHappen;
    forall n | 0 <= n < |e| ensures CanHappen(s[n], e[n]) && s[n + 1] == Next(s[n], e[n], fold) {
      assert Follows(s, e, n, fold);
    }
  }

  /** Two parts of a run make one. */
  lemma Joined(s: seq<State>, e: seq<Event>, t: seq<State>, f: seq<Event>, fold: string -> string)
    requires |s| == |e| + 1 && |t| == |f| + 1 && s[|e|] == t[0]
    requires (forall n | 0 <= n < |e| :: Follows(s, e, n, fold)) && forall n | 0 <= n < |f| :: Follows(t, f, n, fold)
    ensures forall n | 0 <= n < |e + f| :: Follows(s + t[1..], e + f, n, fold)
  {
    hide Next, CanHappen;
    forall n | 0 <= n < |e + f| ensures Follows(s + t[1..], e + f, n, fold) {
      if n < |e| {
        assert Follows(s, e, n, fold);
      } else {
        assert Follows(t, f, n - |e|, fold);
      }
    }
  }

  ghost predicate Follows(s: seq<State>, e: seq<Event>, n: nat, fold: string -> string)
    requires n < |e| < |s|
  {
    CanHappen(s[n], e[n]) && s[n + 1] == Next(s[n], e[n], fold)
  }

  /** A background batch that starts by putting the first keyword on photo 7. */
  function Adding(edits: seq<Edit>): seq<Event> {
    [StartJob(0, BatchKind, Batch(edits)), WorkerLooks(0, Send(AddKeyword(7, 1))), CoordinatorTakes(true)]
  }

  /** The state when it has: the worker does not wait, and no step is recorded yet. */
  function Added(s: State, edits: seq<Edit>): State
    requires 1 in s.desk.tree
  {
    var add := AddKeyword(7, 1);
    s.(desk := Desk(map[7 := With([1], [PathOf(s.desk.tree, 1)])], s.desk.tree),
       workers := map[0 := Looked(Fresh(BatchKind, Batch(edits)), Send(add)).(waits := false)],
       jobs := map[0 := BatchJob(BatchKind, [Gain(s.desk.tree)], 0, 0, [Taken(s.desk, add, true)])])
  }

  ghost predicate Ready(s: State) {
    s.desk.photos == map[7 := With([], [])] && s.jobs == map[] && s.workers == map[] && s.inbound == []
      && s.cancelled == {}
  }

  lemma BatchStarts(desk: Desk, edits: seq<Edit>)
    requires edits != []
    ensures Starts(desk, BatchKind, Batch(edits))
  {
  }

  lemma AddsInBackground(s: State, edits: seq<Edit>, fold: string -> string) returns (states: seq<State>)
    requires Ready(s) && InStep(s) && 1 in s.desk.tree && edits != [] && edits[0] == AddKeyword(7, 1)
    ensures |states| == 4 && states[0] == s && states[3] == Added(s, edits) && InStep(states[3])
    ensures forall n | 0 <= n < 3 :: Follows(states, Adding(edits), n, fold)
  {
    hide Next, CanHappen, OutcomeOf, Apply, PathOf, Starts, NoMissingParent;
    var events, items := Adding(edits), Batch(edits);
    BatchStarts(s.desk, edits);
    StartGoes(s, BatchKind, items, fold);
    var s1 := Next(s, events[0], fold);
    SendGoes(s1, Fresh(BatchKind, items), edits[0], fold);
    var s2 := Next(s1, events[1], fold);
    AddChanges(s.desk.tree, fold);
    assert s2.desk == Desk(map[7 := With([], [])], s.desk.tree);
    ApplyGoes(s2, s2.workers[0], Open(BatchKind), edits[0], Gain(s.desk.tree), fold);
    states := [s, s1, s2, Next(s2, events[2], fold)];
    assert [] + [Gain(s.desk.tree)] == [Gain(s.desk.tree)];
    assert [] + [Taken(s2.desk, edits[0], true)] == [Taken(s.desk, edits[0], true)];
  }

  // ---------------------------------------------------------------- undoing keywords that were made

  /** An undo of the only step. */
  lemma UndoGoes(s: State, step: Entry, written: Entry, stopped: bool, fold: string -> string)
    requires s.journal == [step] && HasStateChange(step)
             && Written(s.desk, Ordered(step, Undo), Undo) == (written, stopped)
    ensures CanHappen(s, Travel(Undo)) && WrittenBy(s, Travel(Undo)) == written
    ensures var after := Next(s, Travel(Undo), fold);
            && after.desk == Travelled(s.desk, written, Undo) && after.journal == []
            && after.undone == if stopped then s.undone else s.undone + [step]
  {
    hide Travelled, Written, AllKnownAlong, InStep, HasStateChange;
    assert s.journal[..0] == [];
  }

  /** Taking back one more keyword that was made. */
  lemma TakesBack(desk: Desk, front: Entry, entry: KeywordEntry)
    ensures var before, changes := Travelled(desk, front, Undo), front + [MadeChange(entry)];
            && Travelled(desk, changes, Undo) == before.(tree := before.tree - {entry.id})
            && var written := Written(desk, front, Undo);
               Written(desk, changes, Undo) ==
               if written.1 then written
               else (written.0 + [MadeChange(entry)],
                     !NoMissingParent(Travelled(desk, written.0 + [MadeChange(entry)], Undo).tree))
  {
    hide NoMissingParent;
    var changes := front + [MadeChange(entry)];
    assert changes[..|front|] == front;
    OverlayOne(Travelled(desk, front, Undo).tree, KeywordDelta(entry.id, None, Some(entry)), Undo);
  }

  lemma NothingWritten(desk: Desk)
    ensures Travelled(desk, [], Undo) == desk && Written(desk, [], Undo) == ([], false)
  {
  }

  // ---------------------------------------------------------------- an undo that leaves a keyword dangling

  function DanglingRun(): seq<Event> {
    [Do([Create(TOP)], true)] + Adding([AddKeyword(7, 1)]) + [Travel(Undo)]
  }

  lemma UndoCreationGoes(s: State, fold: string -> string)
    requires s.desk.tree == map[1 := TOP] && s.journal == [Made(TOP)]
    ensures CanHappen(s, Travel(Undo))
    ensures var after := Next(s, Travel(Undo), fold);
            after.desk == s.desk.(tree := map[]) && after.journal == [] && after.undone == s.undone + [Made(TOP)]
  {
    var step := Made(TOP);
    NothingWritten(s.desk);
    TakesBack(s.desk, [], TOP);
    assert [] + [MadeChange(TOP)] == step == Ordered(step, Undo) && s.desk.tree - {1} == map[];
    hide Travelled, Written, Next, CanHappen;
    UndoGoes(s, step, step, false, fold);
  }

  lemma FirstKeyword(s: State, fold: string -> string)
    requires s == Idle(map[7 := With([], [])], map[])
    ensures Follows([s, s.(desk := s.desk.(tree := map[1 := TOP]), journal := [Made(TOP)])], [Do([Create(TOP)], true)],
                    0, fold)
  {
    hide Next, CanHappen, OutcomeOf, Apply;
    CreateChanges(s.desk, TOP, fold);
    OneGoes(s, Create(TOP), MadeChange(TOP), fold);
    assert s.desk.tree[1 := TOP] == map[1 := TOP] && s.journal + [[MadeChange(TOP)]] == [Made(TOP)];
  }

  /** **An undo can leave a keyword dangling**: a keyword is made, a background batch puts it on a photo and has
      recorded no step yet, and undoing the last step takes the keyword out. */
  lemma AnUndoLeavesAKeywordDangling(fold: string -> string) returns (states: seq<State>, events: seq<Event>)
    ensures Run(states, events, fold) && NoJobs(states[0]) && InStep(states[0])
    ensures events == DanglingRun() && InStep(states[4]) && LeavesDangling(states[4], events[4])
    ensures 7 in states[5].desk.photos && states[5].desk.photos[7].keywordIds == [1] && 1 !in states[5].desk.tree
  {
    hide Next, CanHappen, PathOf, LeavesDangling, Run, Batch;
    var s0 := Idle(map[7 := With([], [])], map[]);
    var s1 := s0.(desk := s0.desk.(tree := map[1 := TOP]), journal := [Made(TOP)]);
    FirstKeyword(s0, fold);
    var middle := AddsInBackground(s1, [AddKeyword(7, 1)], fold);
    UndoCreationGoes(middle[3], fold);
    events := DanglingRun();
    states := [s0] + middle + [Next(middle[3], Travel(Undo), fold)];
    forall n | 0 <= n < 5 ensures Follows(states, events, n, fold) {
      assert 0 < n < 4 ==> Follows(middle, Adding([AddKeyword(7, 1)]), n - 1, fold);
    }
    Consecutive(states, events, fold);
    assert !AllKnown(states[5].desk) by {
      assert 1 in states[5].desk.photos[7].keywordIds;
    }
    DanglesExactly(states[4], events[4], fold);
  }

  // ---------------------------------------------------------------- an undo the catalogue stops half way

  const TWO: Entry := [MadeChange(TOP), MadeChange(BELOW)]

  function HalfUndoneRun(): seq<Event> {
    [Do([Create(TOP), Create(BELOW)], true)] + Adding([AddKeyword(7, 1), Create(HANGING)])
    + [WorkerLooks(0, Send(Create(HANGING))), CoordinatorTakes(true), Travel(Undo)]
  }

  lemma TwoEdits(desk: Desk, first: Edit, second: Edit, one: Change, other: Change, fold: string -> string)
    requires OutcomeOf(Taken(desk, first, true), fold) == Changed(one)
    requires OutcomeOf(Taken(Apply(desk, first, fold), second, true), fold) == Changed(other)
    ensures AllApply(desk, [first, second], fold)
    ensures Applied(desk, [first, second], fold) == Apply(Apply(desk, first, fold), second, fold)
    ensures ChangesOf(LogOf(desk, [first, second], fold), fold) == [one, other]
  {
    hide OutcomeOf, Apply;
    OneEdit(desk, first, one, fold);
    var front, log := LogOf(desk, [first], fold), LogOf(desk, [first, second], fold);
    assert [first, second][..0] == [] && [first, second][..1] == [first];
    assert log == front + [Taken(Apply(desk, first, fold), second, true)] && log[..|log| - 1] == front;
    assert [one] + [other] == [one, other];
  }

  lemma FirstTwoKeywords(s: State, fold: string -> string)
    requires s == Idle(map[7 := With([], [])], map[])
    ensures Follows([s, s.(desk := s.desk.(tree := map[1 := TOP, 2 := BELOW]), journal := [TWO])],
                    [Do([Create(TOP), Create(BELOW)], true)], 0, fold)
  {
    hide OutcomeOf, Apply, Applied, ChangesOf, LogOf, AllApply;
    CreateChanges(s.desk, TOP, fold);
    var one := s.desk.(tree := map[1 := TOP]);
    assert s.desk.tree[1 := TOP] == one.tree;
    CreateChanges(one, BELOW, fold);
    assert one.tree[2 := BELOW] == map[1 := TOP, 2 := BELOW];
    TwoEdits(s.desk, Create(TOP), Create(BELOW), MadeChange(TOP), MadeChange(BELOW), fold);
    assert s.journal + [TWO] == [TWO];
  }

  /** The batch makes a keyword under the second of the step. */
  lemma MakesHanging(s: State, fold: string -> string) returns (states: seq<State>)
    requires s.desk.photos.Keys == {7} && s.desk.photos[7].keywordIds == [1] && s.desk.tree == map[1 := TOP, 2 := BELOW]
    requires InStep(s) && s.inbound == [] && s.cancelled == {}
    requires exists w, record :: s.workers == map[0 := w] && s.jobs == map[0 := record] && NextIs(w, Create(HANGING))
    ensures |states| == 3 && states[0] == s
    ensures Follows(states, [WorkerLooks(0, Send(Create(HANGING))), CoordinatorTakes(true)], 0, fold)
    ensures Follows(states, [WorkerLooks(0, Send(Create(HANGING))), CoordinatorTakes(true)], 1, fold)
    ensures states[2].desk == s.desk.(tree := map[1 := TOP, 2 := BELOW, 3 := HANGING]) && InStep(states[2])
    ensures states[2].journal == s.journal && states[2].undone == s.undone
  {
    hide Next, CanHappen, OutcomeOf, Apply;
    var edit := Create(HANGING);
    var w, record :| s.workers == map[0 := w] && s.jobs == map[0 := record] && NextIs(w, edit);
    SendGoes(s, w, edit, fold);
    var s1 := Next(s, WorkerLooks(0, Send(edit)), fold);
    CreateChanges(s.desk, HANGING, fold);
    assert s.desk.tree[3 := HANGING] == map[1 := TOP, 2 := BELOW, 3 := HANGING];
    ApplyGoes(s1, Looked(w, Send(edit)), record, edit, MadeChange(HANGING), fold);
    states := [s, s1, Next(s1, CoordinatorTakes(true), fold)];
  }

  predicate NextIs(w: Worker, edit: Edit) { !w.waits && w.looked < |w.items| && w.items[w.looked] == Fixed(edit) }

  /** Taking back the second keyword leaves what hangs from it without its parent, and the undo stops there. */
  lemma UndoStops(s: State, fold: string -> string)
    requires s.desk.tree == map[1 := TOP, 2 := BELOW, 3 := HANGING] && s.journal == [TWO] && s.undone == []
    ensures CanHappen(s, Travel(Undo)) && WrittenBy(s, Travel(Undo)) == [MadeChange(BELOW)]
    ensures var after := Next(s, Travel(Undo), fold);
            after.desk == s.desk.(tree := map[1 := TOP, 3 := HANGING]) && after.journal == [] && after.undone == []
  {
    NothingWritten(s.desk);
    TakesBack(s.desk, [], BELOW);
    var last := [MadeChange(BELOW)];
    assert [] + last == last && s.desk.tree - {2} == map[1 := TOP, 3 := HANGING];
    assert !NoMissingParent(map[1 := TOP, 3 := HANGING]) by {
      assert map[1 := TOP, 3 := HANGING][3].parent == Some(2);
    }
    TakesBack(s.desk, last, TOP);
    assert last + [MadeChange(TOP)] == Ordered(TWO, Undo) && TWO[0].VocabularyChange?;
    hide Travelled, Written, Next, CanHappen, NoMissingParent;
    UndoGoes(s, TWO, last, true, fold);
  }

  /** Once photo 7 carries the first keyword, the batch's next edit waits to be sent. */
  lemma NextIsSent(s: State, edits: seq<Edit>)
    requires Ready(s) && 1 in s.desk.tree && |edits| > 1
    ensures var t := Added(s, edits);
            && t.desk.photos.Keys == {7} && t.desk.photos[7].keywordIds == [1] && t.desk.tree == s.desk.tree
            && t.inbound == [] && t.cancelled == {} && t.journal == s.journal && t.undone == s.undone
            && exists w, record :: t.workers == map[0 := w] && t.jobs == map[0 := record] && NextIs(w, edits[1])
  {
    hide PathOf;
    var t := Added(s, edits);
    assert Batch(edits)[1] == Fixed(edits[1]);
    assert t.workers == map[0 := t.workers[0]] && t.jobs == map[0 := t.jobs[0]] && NextIs(t.workers[0], edits[1]);
  }

  /** The run up to the undo. */
  lemma HalfUndoneBegins(fold: string -> string) returns (states: seq<State>)
    ensures |states| == 7 && states[0] == Idle(map[7 := With([], [])], map[])
    ensures forall n | 0 <= n < 6 :: Follows(states, HalfUndoneRun()[..6], n, fold)
    ensures var s := states[6];
            && s.desk.tree == map[1 := TOP, 2 := BELOW, 3 := HANGING] && s.journal == [TWO] && s.undone == []
            && InStep(s) && s.desk.photos.Keys == {7} && s.desk.photos[7].keywordIds == [1]
  {
    hide Next, CanHappen, PathOf, Run, Added, Batch, Follows;
    var s0 := Idle(map[7 := With([], [])], map[]);
    var s1 := s0.(desk := s0.desk.(tree := map[1 := TOP, 2 := BELOW]), journal := [TWO]);
    FirstTwoKeywords(s0, fold);
    var edits := [AddKeyword(7, 1), Create(HANGING)];
    var middle := AddsInBackground(s1, edits, fold);
    NextIsSent(s1, edits);
    var last := MakesHanging(middle[3], fold);
    var first := [Do([Create(TOP), Create(BELOW)], true)];
    var rest := [WorkerLooks(0, Send(Create(HANGING))), CoordinatorTakes(true)];
    Joined([s0, s1], first, middle, Adding(edits), fold);
    Joined([s0, s1] + middle[1..], first + Adding(edits), last, rest, fold);
    states := [s0, s1] + middle[1..] + last[1..];
    assert first + Adding(edits) + rest == HalfUndoneRun()[..6];
  }

  /** **An undo can stop half way**: two keywords are made in one step, a background batch makes another under the
      second and has recorded no step yet. Undoing takes the second out and is refused, so the first stays, the photo
      that carries it has no keyword dangling, the step is on neither stack, and the third keyword has lost its
      parent. */
  lemma AnUndoStopsHalfWay(fold: string -> string) returns (states: seq<State>, events: seq<Event>)
    ensures Run(states, events, fold) && NoJobs(states[0]) && InStep(states[0])
    ensures events == HalfUndoneRun() && InStep(states[6]) && states[6].journal == [TWO]
    ensures WrittenBy(states[6], events[6]) == [MadeChange(BELOW)] && !LeavesDangling(states[6], events[6])
    ensures states[7].desk.tree == map[1 := TOP, 3 := HANGING] && states[7].journal == [] && states[7].undone == []
    ensures 7 in states[7].desk.photos && states[7].desk.photos[7].keywordIds == [1]
  {
    hide Next, CanHappen, LeavesDangling, Run, WrittenBy;
    var begun := HalfUndoneBegins(fold);
    UndoStops(begun[6], fold);
    events := HalfUndoneRun();
    states := begun + [Next(begun[6], Travel(Undo), fold)];
    forall n | 0 <= n < 7 ensures Follows(states, events, n, fold) {
      assert n < 6 ==> Follows(begun, HalfUndoneRun()[..6], n, fold);
    }
    Consecutive(states, events, fold);
    DanglesExactly(states[6], events[6], fold);
  }

  // ---------------------------------------------------------------- a sweep that leaves a keyword without its parent

  const SWEEP := SweepKind(1, [1])
  const OFF := KeywordsChange(7, KeywordSet([1], ["a"]), KeywordSet([], []))
  const SWEPT := RemoveKeywords(7, [1])

  function OrphanRun(): seq<Event> {
    [StartJob(0, SWEEP, [Fixed(SWEPT)]), WorkerLooks(0, Send(SWEPT)), CoordinatorTakes(true)]
    + [Do([Create(BELOW)], true), WorkerEnds(0), CoordinatorTakes(true)]
  }

  lemma RemoveChanges(tree: Tree, fold: string -> string)
    ensures OutcomeOf(Taken(Desk(map[7 := With([1], ["a"])], tree), SWEPT, true), fold) == Changed(OFF)
    ensures Apply(Desk(map[7 := With([1], ["a"])], tree), SWEPT, fold) == Desk(map[7 := With([], [])], tree)
  {
    var meta := With([1], ["a"]);
    assert [1][..0] + [1][1..] == [] && ["a"][..0] + ["a"][1..] == [];
    assert RemoveAt(KeywordsOf(meta), 0) == KeywordSet([], []);
    assert DropFrom(KeywordsOf(meta), 0, [1]) == KeywordSet([], []);
    assert meta.keywordIds[0] in [1];
    assert map[7 := meta][7 := With([], [])] == map[7 := With([], [])];
  }

  lemma SweepStarts(desk: Desk)
    requires desk == Desk(map[7 := With([1], ["a"])], map[1 := TOP])
    ensures Starts(desk, SWEEP, [Fixed(SWEPT)])
  {
    assert IsBranch(desk.tree, 1, [1]) by {
      assert Under(desk.tree, 1, 1);
    }
    assert 1 in desk.photos[7].keywordIds && 1 in [1];
    assert AreCarriers(desk.photos, [1], [7]);
    assert Removals([7], [1])[0] == SWEPT && Sends([Fixed(SWEPT)], Removals([7], [1]));
    hide IsBranch, AreCarriers, Sends, Removals;
  }

  lemma EndGoes(s: State, w: Worker, fold: string -> string)
    requires s.workers == map[0 := w] && !w.waits && w.looked == |w.items| && s.inbound == [] && InStep(s)
    ensures CanHappen(s, WorkerEnds(0))
    ensures Next(s, WorkerEnds(0), fold) == s.(workers := map[], inbound := [JobDone(0, w)])
  {
    hide AllKnown, NoMissingParent;
    assert s.workers - {0} == map[] && [] + [JobDone(0, w)] == [JobDone(0, w)];
  }

  lemma SweepEndGoes(s: State, w: Worker, change: Change, log: seq<Taken>, fold: string -> string)
    requires s.inbound == [JobDone(0, w)] && s.jobs == map[0 := BatchJob(SWEEP, [change], 0, 0, log)]
             && s.cancelled == {}
    requires s.desk == Desk(map[7 := With([], [])], map[1 := TOP, 2 := BELOW])
    ensures CanHappen(s, CoordinatorTakes(true)) && EndsUnderKept(s, CoordinatorTakes(true))
    ensures var after := Next(s, CoordinatorTakes(true), fold);
            after.desk == s.desk.(tree := map[2 := BELOW]) && after.journal == s.journal + [[change]]
  {
    assert NoneCarried(s.desk.photos, [1]);
    assert 2 in s.desk.tree && s.desk.tree[2].parent == Some(1) && KeptUnder(s.desk.tree, [1]);
    assert (set k | k in [1]) == {1};
    assert map[1 := TOP, 2 := BELOW] - {1} == map[2 := BELOW];
    assert [change] + [] == [change];
  }

  /** The state when the sweep has taken the branch off its photo. */
  function Swept(s: State): State {
    s.(desk := Desk(map[7 := With([], [])], s.desk.tree),
       workers := map[0 := Looked(Fresh(SWEEP, [Fixed(SWEPT)]), Send(SWEPT)).(waits := false)],
       jobs := map[0 := BatchJob(SWEEP, [OFF], 0, 0, [Taken(s.desk, SWEPT, true)])])
  }

  lemma OrphanRunStarts(s: State, fold: string -> string) returns (states: seq<State>)
    requires s == Idle(map[7 := With([1], ["a"])], map[1 := TOP])
    ensures |states| == 4 && states[0] == s && states[3] == Swept(s) && InStep(s) && InStep(states[3])
    ensures forall n | 0 <= n < 3 :: Follows(states, OrphanRun()[..3], n, fold)
  {
    hide Next, CanHappen, OutcomeOf, Apply, Starts;
    SweepStarts(s.desk);
    StartGoes(s, SWEEP, [Fixed(SWEPT)], fold);
    var s1 := Next(s, OrphanRun()[0], fold);
    SendGoes(s1, Fresh(SWEEP, [Fixed(SWEPT)]), SWEPT, fold);
    var s2 := Next(s1, OrphanRun()[1], fold);
    RemoveChanges(s.desk.tree, fold);
    assert s2.desk == s.desk;
    ApplyGoes(s2, s2.workers[0], Open(SWEEP), SWEPT, OFF, fold);
    states := [s, s1, s2, Next(s2, OrphanRun()[2], fold)];
    assert [] + [OFF] == [OFF] && [] + [Taken(s.desk, SWEPT, true)] == [Taken(s.desk, SWEPT, true)];
  }

  /** A keyword is made under the branch, and the sweep ends. */
  lemma OrphanRunEnds(s: State, begun: State, fold: string -> string) returns (states: seq<State>)
    requires begun == Idle(map[7 := With([1], ["a"])], map[1 := TOP]) && s == Swept(begun) && InStep(s)
    ensures |states| == 4 && states[0] == s
    ensures forall n | 0 <= n < 3 :: Follows(states, OrphanRun()[3..], n, fold)
    ensures EndsUnderKept(states[2], OrphanRun()[5]) && InStep(states[2])
    ensures states[3].desk.tree == map[2 := BELOW] && states[3].journal == [Made(BELOW), [OFF]]
  {
    hide Next, CanHappen, EndsUnderKept, OutcomeOf, Apply;
    CreateChanges(s.desk, BELOW, fold);
    assert s.desk.tree[2 := BELOW] == map[1 := TOP, 2 := BELOW];
    OneGoes(s, Create(BELOW), MadeChange(BELOW), fold);
    var s4 := Next(s, OrphanRun()[3], fold);
    EndGoes(s4, s4.workers[0], fold);
    var s5 := Next(s4, OrphanRun()[4], fold);
    SweepEndGoes(s5, s4.workers[0], OFF, s.jobs[0].log, fold);
    states := [s, s4, s5, Next(s5, OrphanRun()[5], fold)];
    assert s5.journal == [Made(BELOW)] && s5.journal + [[OFF]] == [Made(BELOW), [OFF]];
  }

  /** **A sweep can leave a keyword without its parent**: one is made under the branch while the sweep runs, nobody
      carries the branch at its end, the branch goes, and the step of the journal does not hold the deletion. */
  lemma ASweepLeavesAKeywordWithoutParent(fold: string -> string) returns (states: seq<State>, events: seq<Event>)
    ensures Run(states, events, fold) && NoJobs(states[0]) && InStep(states[0])
    ensures events == OrphanRun() && InStep(states[5]) && EndsUnderKept(states[5], events[5])
    ensures states[6].desk.tree == map[2 := BELOW] && !NoMissingParent(states[6].desk.tree)
    ensures states[6].journal == [Made(BELOW), [OFF]]
  {
    hide Next, CanHappen, EndsUnderKept, Run;
    events := OrphanRun();
    var s := Idle(map[7 := With([1], ["a"])], map[1 := TOP]);
    var first := OrphanRunStarts(s, fold);
    var second := OrphanRunEnds(first[3], s, fold);
    states := first + second[1..];
    forall n | 0 <= n < 6 ensures Follows(states, events, n, fold) {
      assert n < 3 ==> Follows(first, OrphanRun()[..3], n, fold);
      assert n >= 3 ==> Follows(second, OrphanRun()[3..], n - 3, fold);
    }
    Consecutive(states, events, fold);
    assert states[6].desk.tree[2].parent == Some(1);
  }
}
