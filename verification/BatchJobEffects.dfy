// What the events around the background jobs do to the photos, the vocabulary and the two stacks of steps, said of the
// state before and after.
module BatchJobEffects {
  import opened Wrappers
  import opened Vocabulary
  import opened VocabularyEdits
  import opened KeywordIndex
  import opened PhotoMetadata
  import opened Journal
  import opened Worlds
  import opened PhotoEdits
  import opened PhotoChanges
  import opened BatchJobs
  import opened BatchJobKeywords

  predicate AllNormal(desk: Desk) { forall p | p in desk.photos :: Normal(desk.photos[p]) }

  // ---------------------------------------------------------------- one item, and several edits

  lemma ItemDoes(a: Taken, fold: string -> string)
    requires AllNormal(a.before)
    ensures exists failed :: EditAnswered(a.before, DeskAfter(a, fold), a.edit, failed, a.writes, fold)
    ensures !OutcomeOf(a, fold).NotApplied? ==>
              EditDone(a.before, DeskAfter(a, fold), a.edit) && EditRefused(a.before, a.edit, None, fold)
  {
    hide Apply, Normal, EditDone, EditRefused, Refusing, ChangeOf;
    EditedPhotos(a.before, a.edit, fold);
    AnsweredRight(a.before, a.before, a.edit, a.writes, fold);
    var why := Refusing(a.before, a.edit, fold);
    var failed := if why.Some? then why else if a.writes then None else Some(WriteFailed);
    AppliedOrNot(a, fold);
    assert EditAnswered(a.before, DeskAfter(a, fold), a.edit, failed, a.writes, fold);
  }

  lemma EditedPhotos(desk: Desk, edit: Edit, fold: string -> string)
    requires AllNormal(desk)
    ensures IsPhotoEdit(edit) && edit.photo in desk.photos ==> Normal(desk.photos[edit.photo])
  {
  }

  lemma AppliedOrNot(a: Taken, fold: string -> string)
    ensures DeskAfter(a, fold) ==
            if Refusing(a.before, a.edit, fold).Some? || !a.writes then a.before else Apply(a.before, a.edit, fold)
    ensures OutcomeOf(a, fold).NotApplied? <==> Refusing(a.before, a.edit, fold).Some? || !a.writes
  {
    hide Apply, ChangeOf;
  }

  lemma ItemKeepsNormal(a: Taken, fold: string -> string)
    requires AllNormal(a.before)
    ensures AllNormal(DeskAfter(a, fold))
  {
    hide Normal, Edited, ChangeOf, Overlay, PlanCreate;
    if IsPhotoEdit(a.edit) && a.edit.photo in a.before.photos {
      EditRecords(a.before.photos[a.edit.photo], a.edit, PathFor(a.before.tree, a.edit));
    }
  }

  /** Edits none of which is refused lead from the desk to the one after all of them. */
  lemma {:induction false} EditsDo(desk: Desk, edits: seq<Edit>, fold: string -> string)
    requires AllNormal(desk) && AllApply(desk, edits, fold)
    ensures AllDone(desk, Applied(desk, edits, fold), edits, fold) && AllNormal(Applied(desk, edits, fold))
  {
    hide AllNormal, AllDone, OutcomeOf, DeskAfter, EditDone, EditRefused;
    if edits == [] {
      NoneDone(desk, fold);
    } else {
      var front, last := edits[..|edits| - 1], edits[|edits| - 1];
      FrontApplies(desk, edits, fold);
      EditsDo(desk, front, fold);
      var a := Taken(Applied(desk, front, fold), last, true);
      ItemDoes(a, fold);
      ItemKeepsNormal(a, fold);
      OneDoneMore(desk, a.before, DeskAfter(a, fold), front, last, fold);
      assert edits == front + [last];
    }
  }

  lemma FrontApplies(desk: Desk, edits: seq<Edit>, fold: string -> string)
    requires edits != [] && AllApply(desk, edits, fold)
    ensures AllApply(desk, edits[..|edits| - 1], fold)
    ensures !OutcomeOf(Taken(Applied(desk, edits[..|edits| - 1], fold), edits[|edits| - 1], true), fold).NotApplied?
  {
    hide OutcomeOf, Applied;
    var front := edits[..|edits| - 1];
    forall n | 0 <= n < |front|
      ensures !OutcomeOf(Taken(Applied(desk, front[..n], fold), front[n], true), fold).NotApplied?
    {
      assert front[..n] == edits[..n] && front[n] == edits[n];
    }
  }

  /** An edit among several is refused on what the ones before it made. */
  ghost predicate OneRefused(desk: Desk, edits: seq<Edit>, fold: string -> string) {
    exists n, mid, why ::
      && 0 <= n < |edits| && AllDone(desk, mid, edits[..n], fold) && EditRefused(mid, edits[n], Some(why), fold)
  }

  lemma {:induction false} RefusedSomewhere(desk: Desk, edits: seq<Edit>, fold: string -> string)
    requires AllNormal(desk) && !AllApply(desk, edits, fold)
    ensures OneRefused(desk, edits, fold)
    decreases |edits|
  {
    hide AllNormal, AllDone, OutcomeOf, DeskAfter, EditRefused, Applied;
    var front, last := edits[..|edits| - 1], edits[|edits| - 1];
    if AllApply(desk, front, fold) {
      LastIsRefused(desk, edits, fold);
      EditsDo(desk, front, fold);
      var a := Taken(Applied(desk, front, fold), last, true);
      AppliedOrNot(a, fold);
      RefusingSays(a.before, last, fold);
      assert AllDone(desk, a.before, edits[..|edits| - 1], fold)
             && EditRefused(a.before, edits[|edits| - 1], Some(Refusing(a.before, last, fold).value), fold);
    } else {
      RefusedSomewhere(desk, front, fold);
      var n, mid, why :| 0 <= n < |front| && AllDone(desk, mid, front[..n], fold)
                         && EditRefused(mid, front[n], Some(why), fold);
      assert front[..n] == edits[..n] && front[n] == edits[n];
    }
  }

  lemma LastIsRefused(desk: Desk, edits: seq<Edit>, fold: string -> string)
    requires edits != [] && !AllApply(desk, edits, fold) && AllApply(desk, edits[..|edits| - 1], fold)
    ensures OutcomeOf(Taken(Applied(desk, edits[..|edits| - 1], fold), edits[|edits| - 1], true), fold).NotApplied?
  {
    hide OutcomeOf, Applied;
    var front := edits[..|edits| - 1];
    forall n | 0 <= n < |front|
      ensures !OutcomeOf(Taken(Applied(desk, edits[..n], fold), edits[n], true), fold).NotApplied?
    {
      assert front[..n] == edits[..n] && front[n] == edits[n];
    }
  }

  // ---------------------------------------------------------------- a branch off its carriers

  /** The carriers have lost the branch, path snapshots and all; every other photo is as it was. */
  ghost predicate BranchOff(before: map<PhotoId, Metadata>, after: map<PhotoId, Metadata>, carriers: seq<PhotoId>,
                            branch: seq<KeywordId>)
  {
    && after.Keys == before.Keys
    && forall p | p in after ::
         if p in carriers then SweptOff(before[p], after[p], branch) else after[p] == before[p]
  }

  lemma RemovalDoes(before: Desk, photo: PhotoId, branch: seq<KeywordId>, fold: string -> string)
    requires photo in before.photos
    ensures var after := DeskAfter(Taken(before, RemoveKeywords(photo, branch), true), fold);
            after == before.(photos := before.photos[photo := after.photos[photo]])
            && photo in after.photos && SweptOff(before.photos[photo], after.photos[photo], branch)
  {
    hide Edited, ChangeOf, SweptOff;
    SweepTakesOff(before.tree, before.photos[photo], RemoveKeywords(photo, branch));
  }

  lemma {:induction false} RemovalsDo(desk: Desk, carriers: seq<PhotoId>, branch: seq<KeywordId>,
                                      fold: string -> string)
    requires forall p | p in carriers :: p in desk.photos
    requires forall i, j | 0 <= i < j < |carriers| :: carriers[i] != carriers[j]
    ensures var swept := Applied(desk, Removals(carriers, branch), fold);
            swept.tree == desk.tree && BranchOff(desk.photos, swept.photos, carriers, branch)
  {
    hide SweptOff, DeskAfter;
    if carriers != [] {
      var front, last := carriers[..|carriers| - 1], carriers[|carriers| - 1];
      assert carriers == front + [last];
      RemovalsDo(desk, front, branch, fold);
      LastRemoval(desk, carriers, branch, fold);
      hide Removals, Applied;
      RemovalDoes(Applied(desk, Removals(front, branch), fold), last, branch, fold);
      assert last !in front;
    }
  }

  // ---------------------------------------------------------------- every event

  /** What an event makes of the photos and the vocabulary; what an undo or a redo does is said change by change. */
  ghost predicate DeskMoves(s: State, e: Event, after: Desk, fold: string -> string)
    requires CanHappen(s, e)
  {
    match e
    case CoordinatorTakes(writes) =>
      (match s.inbound[0]
       case BatchItem(_, edit) => exists failed :: EditAnswered(s.desk, after, edit, failed, writes, fold)
       case JobDone(job, _) =>
         if job in s.jobs && s.jobs[job].kind.SweepKind? && NoneCarried(s.desk.photos, s.jobs[job].kind.branch)
         then after == s.desk.(tree := s.desk.tree - set k | k in s.jobs[job].kind.branch) else after == s.desk)
    case Do(edits, writes) =>
      || (writes && AllDone(s.desk, after, edits, fold))
      || (after == s.desk && (!writes || OneRefused(s.desk, edits, fold)))
    case Reshape(entry) => after == s.desk.(tree := s.desk.tree[entry.id := entry])
    case DeleteKeyword(_, branch, carriers) =>
      && after.tree == s.desk.tree - (set k | k in branch)
      && BranchOff(s.desk.photos, after.photos, carriers, branch)
    case Travel(_) => true
    case _ => after == s.desk
  }

  lemma TakingMovesDesk(s: State, e: Event, fold: string -> string)
    requires CanHappen(s, e) && e.CoordinatorTakes? && AllNormal(s.desk)
    ensures DeskMoves(s, e, Next(s, e, fold).desk, fold)
  {
    hide Next, OutcomeOf, DeskAfter, AllNormal, EditAnswered, NoneCarried;
    NextDesk(s, e, fold);
    if s.inbound[0].BatchItem? {
      ItemDoes(Taken(s.desk, s.inbound[0].edit, e.writes), fold);
    }
  }

  lemma DoingMovesDesk(s: State, e: Event, fold: string -> string)
    requires CanHappen(s, e) && e.Do? && AllNormal(s.desk)
    ensures DeskMoves(s, e, Next(s, e, fold).desk, fold)
  {
    hide Next, OutcomeOf, DeskAfter, AllNormal, AllDone, OneRefused, AllApply, Applied;
    NextDesk(s, e, fold);
    if AllApply(s.desk, e.edits, fold) {
      EditsDo(s.desk, e.edits, fold);
    } else {
      RefusedSomewhere(s.desk, e.edits, fold);
    }
  }

  /** **What the events do to the photos and the vocabulary**: a taken item is one edit done or refused, a command is
      all of its edits or none, a finished sweep and a deletion take out their branch, and nothing else moves
      anything. */
  lemma EventsMoveTheDesk(s: State, e: Event, fold: string -> string)
    requires CanHappen(s, e) && AllNormal(s.desk)
    ensures DeskMoves(s, e, Next(s, e, fold).desk, fold)
  {
    hide Next, AllNormal, AllDone, OneRefused, Applied, BranchOff, Removals, IsBranch, Starts, CanLook;
    match e
    case CoordinatorTakes(_) => TakingMovesDesk(s, e, fold);
    case Do(_, _) => DoingMovesDesk(s, e, fold);
    case DeleteKeyword(_, branch, carriers) =>
      NextDesk(s, e, fold);
      RemovalsDo(s.desk, carriers, branch, fold);
    case Travel(_) =>
    case _ => NextDesk(s, e, fold);
  }

  // ---------------------------------------------------------------- the two stacks

  /** One more step was recorded, and nothing can be redone; or the stacks are as they were. */
  predicate OneStepMore(s: State, t: State) {
    || (t.journal == s.journal && t.undone == s.undone)
    || (|t.journal| == |s.journal| + 1 && t.journal[..|s.journal|] == s.journal && t.undone == [])
  }

  /** An undo or a redo takes the newest step of its stack, and puts it on the other unless the step was dropped or
      stopped half way; every other event records a step, or none. */
  predicate StacksMove(s: State, e: Event, t: State) {
    match e
    case Travel(direction) =>
      var from, other := StackOf(s, direction), StackOf(s, if direction == Undo then Redo else Undo);
      && from != []
      && StackOf(t, direction) == from[..|from| - 1]
      && var step := from[|from| - 1];
      var made := !Drops(s.desk, step) && !Written(s.desk, Ordered(step, direction), direction).1;
      StackOf(t, if direction == Undo then Redo else Undo) == if made then other + [step] else other
    case _ => OneStepMore(s, t)
  }

  lemma UndoMovesTheStacks(s: State)
    requires s.journal != []
    ensures StacksMove(s, Travel(Undo), AfterTravel(s, Undo))
  {
    hide Drops, Written, Travelled, Ordered, AllKnownAlong;
  }

  lemma RedoMovesTheStacks(s: State)
    requires s.undone != []
    ensures StacksMove(s, Travel(Redo), AfterTravel(s, Redo))
  {
    hide Drops, Written, Travelled, Ordered, AllKnownAlong;
  }

  lemma TravelMovesTheStacks(s: State, e: Event, fold: string -> string)
    requires CanHappen(s, e) && e.Travel?
    ensures StacksMove(s, e, Next(s, e, fold))
  {
    hide InStep, Drops, Written, Ordered, AfterTravel;
    if e.direction == Undo {
      UndoMovesTheStacks(s);
    } else {
      RedoMovesTheStacks(s);
    }
  }

  lemma TakingMovesTheStacks(s: State, e: Event, fold: string -> string)
    requires CanHappen(s, e) && e.CoordinatorTakes?
    ensures OneStepMore(s, Next(s, e, fold))
    ensures s.inbound[0].BatchItem? ==> Next(s, e, fold).journal == s.journal && Next(s, e, fold).undone == s.undone
  {
    hide InStep, DeskAfter, Logged, TreeAfter, EntryOf, FinalReport;
  }

  lemma CommandMovesTheStacks(s: State, e: Event, fold: string -> string)
    requires CanHappen(s, e) && (e.Do? || e.Reshape? || e.DeleteKeyword?)
    ensures OneStepMore(s, Next(s, e, fold))
  {
    hide InStep, Applied, AllApply, LogOf, ChangesOf, DeleteDeltas, Removals, IsBranch, AreCarriers;
  }

  lemma JobMovesNoStack(s: State, e: Event, fold: string -> string)
    requires CanHappen(s, e) && (e.StartJob? || e.WorkerLooks? || e.WorkerEnds? || e.CancelJob?)
    ensures Next(s, e, fold).journal == s.journal && Next(s, e, fold).undone == s.undone
  {
    hide InStep, Looked, Starts, CanLook;
  }

  lemma EventsMoveTheStacks(s: State, e: Event, fold: string -> string)
    requires CanHappen(s, e)
    ensures StacksMove(s, e, Next(s, e, fold))
    ensures e.StartJob? || e.WorkerLooks? || e.WorkerEnds? || e.CancelJob?
            || (e.CoordinatorTakes? && s.inbound[0].BatchItem?) ==>
              Next(s, e, fold).journal == s.journal && Next(s, e, fold).undone == s.undone
  {
    hide Next, Starts, IsBranch, AreCarriers, CanLook, Drops, Written, Ordered;
    match e
    case Travel(_) => TravelMovesTheStacks(s, e, fold);
    case CoordinatorTakes(_) => TakingMovesTheStacks(s, e, fold);
    case Do(_, _) => CommandMovesTheStacks(s, e, fold);
    case Reshape(_) => CommandMovesTheStacks(s, e, fold);
    case DeleteKeyword(_, _, _) => CommandMovesTheStacks(s, e, fold);
    case _ => JobMovesNoStack(s, e, fold);
  }
}
