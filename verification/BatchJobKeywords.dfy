// What the background jobs leave of the keywords, with edits, deletions, undo and redo in between: when one is left
// dangling, how one leaves the vocabulary, when a parent goes missing, and what a sweep needs to delete its branch.
module BatchJobKeywords {
  import opened Wrappers
  import opened Vocabulary
  import opened VocabularyEdits
  import opened KeywordIndex
  import opened PhotoMetadata
  import opened Journal
  import opened Worlds
  import opened PhotoEdits
  import opened BatchJobs

  // ---------------------------------------------------------------- what a step leaves

  function Lookup(tree: Tree, k: KeywordId): Option<KeywordEntry> { if k in tree then Some(tree[k]) else None }

  function AfterDeltas(entry: Option<KeywordEntry>, deltas: seq<KeywordDelta>, direction: Direction, k: KeywordId)
    : Option<KeywordEntry>
  {
    if deltas == [] then entry
    else
      var last := deltas[|deltas| - 1];
      if last.id == k then Target(last, direction) else AfterDeltas(entry, deltas[..|deltas| - 1], direction, k)
  }

  /** What the changes make of a keyword's entry: what the last one that names the keyword says. */
  function EntryAfter(entry: Option<KeywordEntry>, changes: Entry, direction: Direction,
                      k: KeywordId): Option<KeywordEntry> {
    if changes == [] then entry
    else
      var before := EntryAfter(entry, changes[..|changes| - 1], direction, k);
      match changes[|changes| - 1]
      case VocabularyChange(deltas) => AfterDeltas(before, deltas, direction, k)
      case _ => before
  }

  /** What the changes leave a photo carrying: what the last one about its keywords says. */
  function CarriedAfter(ids: seq<KeywordId>, changes: Entry, direction: Direction, photo: PhotoId): seq<KeywordId> {
    if changes == [] then ids
    else
      match changes[|changes| - 1]
      case KeywordsChange(p, before, after) =>
        if p == photo then Pick(direction, before, after).ids
        else CarriedAfter(ids, changes[..|changes| - 1], direction, photo)
      case _ => CarriedAfter(ids, changes[..|changes| - 1], direction, photo)
  }

  lemma {:induction false} OverlayLookup(tree: Tree, deltas: seq<KeywordDelta>, direction: Direction, k: KeywordId)
    ensures Lookup(Overlay(tree, deltas, direction), k) == AfterDeltas(Lookup(tree, k), deltas, direction, k)
  {
    if deltas != [] {
      OverlayLookup(tree, deltas[..|deltas| - 1], direction, k);
    }
  }

  lemma StepCarries(desk: Desk, change: Change, direction: Direction, photo: PhotoId)
    requires photo in desk.photos
    ensures photo in StepDesk(desk, change, direction).photos
    ensures StepDesk(desk, change, direction).photos[photo].keywordIds ==
            if change.KeywordsChange? && change.photo == photo
              then Pick(direction, change.keywordsBefore, change.keywordsAfter).ids
            else desk.photos[photo].keywordIds
  {
    hide Overlay;
  }

  lemma StepKeys(desk: Desk, change: Change, direction: Direction)
    ensures StepDesk(desk, change, direction).photos.Keys == desk.photos.Keys
    ensures StepDesk(desk, change, direction).tree ==
            if change.VocabularyChange? then Overlay(desk.tree, change.keywords, direction) else desk.tree
  {
    hide ApplyChange, Overlay;
  }

  /** **The desk that changes leave is the one their last words say**, keyword by keyword and photo by photo. */
  lemma {:induction false} TravelledSays(desk: Desk, changes: Entry, direction: Direction)
    ensures Travelled(desk, changes, direction).photos.Keys == desk.photos.Keys
    ensures forall p | p in desk.photos ::
              Travelled(desk, changes, direction).photos[p].keywordIds ==
                  CarriedAfter(desk.photos[p].keywordIds, changes, direction, p)
    ensures forall k :: Lookup(Travelled(desk, changes, direction).tree, k) ==
              EntryAfter(Lookup(desk.tree, k), changes, direction, k)
  {
    hide Lookup, StepDesk, Overlay, AfterDeltas;
    if changes != [] {
      var front, last := changes[..|changes| - 1], changes[|changes| - 1];
      TravelledSays(desk, front, direction);
      var before := Travelled(desk, front, direction);
      StepKeys(before, last, direction);
      forall p | p in desk.photos
        ensures Travelled(desk, changes, direction).photos[p].keywordIds ==
                  CarriedAfter(desk.photos[p].keywordIds, changes, direction, p)
      {
        StepCarries(before, last, direction, p);
      }
      forall k
        ensures Lookup(Travelled(desk, changes, direction).tree, k) ==
                  EntryAfter(Lookup(desk.tree, k), changes, direction, k)
      {
        if last.VocabularyChange? {
          OverlayLookup(before.tree, last.keywords, direction, k);
        }
      }
    }
  }

  /** The catalogue refuses a step's change at `n` when it is written. */
  predicate RefusedAt(desk: Desk, changes: Entry, direction: Direction, n: nat)
    requires n < |changes|
  {
    CatalogueRefuses(Travelled(desk, changes[..n + 1], direction), changes[n])
  }

  lemma RefusedBefore(desk: Desk, changes: Entry, direction: Direction, n: nat)
    requires n < |changes| - 1
    ensures RefusedAt(desk, changes[..|changes| - 1], direction, n) <==> RefusedAt(desk, changes, direction, n)
  {
    assert changes[..|changes| - 1][..n + 1] == changes[..n + 1];
  }

  lemma RefusedLast(desk: Desk, changes: Entry, direction: Direction)
    requires changes != []
    ensures var front := Written(desk, changes[..|changes| - 1], direction);
            if front.1 then Written(desk, changes, direction) == front
            else front.0 == changes[..|changes| - 1] ==>
              Written(desk, changes, direction) == (changes, RefusedAt(desk, changes, direction, |changes| - 1))
  {
    hide CatalogueRefuses, Travelled;
    assert changes[..|changes| - 1] + [changes[|changes| - 1]] == changes == changes[..|changes|];
  }

  /** **A step stops at the first change the catalogue refuses**, which is written: what is written is a part of the
      step from its beginning, nothing but its last change is refused, and it is the whole step unless that one is. */
  lemma {:induction false} StopsAtTheFirstRefused(desk: Desk, changes: Entry, direction: Direction)
    ensures var (written, stopped) := Written(desk, changes, direction);
            && written <= changes && (!stopped ==> written == changes) && (stopped ==> written != [])
            && forall n | 0 <= n < |written| ::
                 RefusedAt(desk, written, direction, n) <==> stopped && n == |written| - 1
  {
    if changes != [] {
      var front := changes[..|changes| - 1];
      StopsAtTheFirstRefused(desk, front, direction);
      RefusedLast(desk, changes, direction);
      hide Written, RefusedAt;
      forall n | 0 <= n < |front|
        ensures RefusedAt(desk, front, direction, n) <==> RefusedAt(desk, changes, direction, n)
      {
        RefusedBefore(desk, changes, direction, n);
      }
    }
  }

  /** What is left of a keyword's entry, and what a photo is left carrying, after the changes. */
  function EntryLeft(s: State, e: Event, changes: Entry, k: KeywordId): Option<KeywordEntry>
    requires e.Travel?
  {
    EntryAfter(Lookup(s.desk.tree, k), changes, e.direction, k)
  }

  function CarriedLeft(s: State, e: Event, changes: Entry, photo: PhotoId): seq<KeywordId>
    requires e.Travel? && photo in s.desk.photos
  {
    CarriedAfter(s.desk.photos[photo].keywordIds, changes, e.direction, photo)
  }

  /** The changes an undo or a redo writes, or none when its step is dropped. */
  function WrittenBy(s: State, e: Event): Entry
    requires e.Travel? && StackOf(s, e.direction) != []
  {
    if Drops(s.desk, TakenStep(s, e.direction)) then []
    else Written(s.desk, Ordered(TakenStep(s, e.direction), e.direction), e.direction).0
  }

  lemma TravelSays(s: State, e: Event, fold: string -> string)
    requires CanHappen(s, e) && e.Travel?
    ensures Next(s, e, fold).desk == Travelled(s.desk, WrittenBy(s, e), e.direction)
    ensures var after, changes := Next(s, e, fold).desk, WrittenBy(s, e);
            && after.photos.Keys == s.desk.photos.Keys
            && (forall p | p in s.desk.photos :: after.photos[p].keywordIds == CarriedLeft(s, e, changes, p))
            && forall k :: Lookup(after.tree, k) == EntryLeft(s, e, changes, k)
  {
    NextTravelled(s, e, fold);
    TravelledSays(s.desk, WrittenBy(s, e), e.direction);
    hide Next, CanHappen, Travelled, EntryAfter, CarriedAfter, Lookup, WrittenBy;
  }

  lemma NextTravelled(s: State, e: Event, fold: string -> string)
    requires CanHappen(s, e) && e.Travel?
    ensures Next(s, e, fold).desk == Travelled(s.desk, WrittenBy(s, e), e.direction)
  {
    NothingTravelled(s.desk, e.direction);
    hide Travelled, Drops, Written, InStep, AllKnownAlong, TakenStep;
  }

  lemma NothingTravelled(desk: Desk, direction: Direction)
    ensures Travelled(desk, [], direction) == desk
  {
  }

  // ---------------------------------------------------------------- what edits leave

  /** The last message of a sweep. */
  predicate EndsSweep(s: State, e: Event) {
    && e.CoordinatorTakes? && s.inbound != [] && s.inbound[0].JobDone? && s.inbound[0].job in s.jobs
    && s.jobs[s.inbound[0].job].kind.SweepKind?
  }

  /** The desk an event leaves, when it is no undo and no redo. */
  function DeskLeft(s: State, e: Event, fold: string -> string): Desk
    requires e.CoordinatorTakes? ==> s.inbound != []
  {
    match e
    case Do(edits, writes) => if writes && AllApply(s.desk, edits, fold) then Applied(s.desk, edits, fold) else s.desk
    case Reshape(entry) => s.desk.(tree := s.desk.tree[entry.id := entry])
    case DeleteKeyword(_, branch, carriers) =>
      var swept := Applied(s.desk, Removals(carriers, branch), fold);
      swept.(tree := swept.tree - set k | k in branch)
    case CoordinatorTakes(writes) =>
      if s.inbound[0].BatchItem? then DeskAfter(Taken(s.desk, s.inbound[0].edit, writes), fold)
      else if EndsSweep(s, e) then s.desk.(tree := TreeAfter(s.desk, s.jobs[s.inbound[0].job].kind.branch))
      else s.desk
    case _ => s.desk
  }

  lemma NextDesk(s: State, e: Event, fold: string -> string)
    requires CanHappen(s, e) && !e.Travel?
    ensures Next(s, e, fold).desk == DeskLeft(s, e, fold)
  {
    hide InStep, OutcomeOf, DeskAfter, Looked, Logged, TreeAfter, EntryOf, FinalReport, Applied, AllApply, LogOf,
      ChangesOf, DeleteDeltas, Removals, Starts, IsBranch, AreCarriers, CanLook;
  }

  /** An edit keeps every keyword of the vocabulary as it is, gives a photo only keywords that are there, and names only
      parents that are there. */
  lemma ItemKeeps(a: Taken, fold: string -> string)
    ensures forall k | k in a.before.tree ::
              k in DeskAfter(a, fold).tree && DeskAfter(a, fold).tree[k] == a.before.tree[k]
    ensures AllKnown(a.before) ==> AllKnown(DeskAfter(a, fold))
    ensures NoMissingParent(a.before.tree) ==> NoMissingParent(DeskAfter(a, fold).tree)
  {
    hide Edited, PathFor;
    if !OutcomeOf(a, fold).NotApplied? {
      if a.edit.CreateKeyword? {
        var plan := PlanCreate(a.before.tree, a.edit.name, a.edit.parent, a.edit.id, fold);
        OverlayOne(a.before.tree, plan.deltas[0], Redo);
        assert plan.deltas == [plan.deltas[0]];
      } else {
        EditedKeywords(a.before.photos[a.edit.photo], a.edit, PathFor(a.before.tree, a.edit));
      }
    }
  }

  lemma {:induction false} EditsKeep(desk: Desk, edits: seq<Edit>, fold: string -> string)
    ensures forall k | k in desk.tree ::
              k in Applied(desk, edits, fold).tree && Applied(desk, edits, fold).tree[k] == desk.tree[k]
    ensures AllKnown(desk) ==> AllKnown(Applied(desk, edits, fold))
    ensures NoMissingParent(desk.tree) ==> NoMissingParent(Applied(desk, edits, fold).tree)
  {
    hide DeskAfter, AllKnown, NoMissingParent;
    if edits != [] {
      EditsKeep(desk, edits[..|edits| - 1], fold);
      ItemKeeps(Taken(Applied(desk, edits[..|edits| - 1], fold), edits[|edits| - 1], true), fold);
    }
  }

  lemma RemovalTaken(before: Desk, photo: PhotoId, branch: seq<KeywordId>, fold: string -> string)
    requires photo in before.photos
    ensures var after := DeskAfter(Taken(before, RemoveKeywords(photo, branch), true), fold);
            && after.tree == before.tree && after.photos.Keys == before.photos.Keys
            && (forall k | k in after.photos[photo].keywordIds :: k in before.photos[photo].keywordIds && k !in branch)
            && forall p | p in before.photos && p != photo :: after.photos[p] == before.photos[p]
  {
    hide Edited, ChangeOf;
    SweptPhoto(before.photos[photo], RemoveKeywords(photo, branch));
    FilterHolds(before.photos[photo].keywordIds, Outside(branch));
  }

  /** After a branch was taken off its carriers nobody carries it, and what else they carry they carried. */
  lemma {:induction false} RemovalsTaken(desk: Desk, carriers: seq<PhotoId>, branch: seq<KeywordId>,
                                         fold: string -> string)
    requires forall p | p in carriers :: p in desk.photos
    ensures var swept := Applied(desk, Removals(carriers, branch), fold);
            && swept.tree == desk.tree && swept.photos.Keys == desk.photos.Keys
            && (forall p | p in desk.photos :: forall k | k in swept.photos[p].keywordIds ::
                  k in desk.photos[p].keywordIds)
            && (forall p | p in carriers :: forall k | k in swept.photos[p].keywordIds :: k !in branch)
            && forall p | p in desk.photos && p !in carriers :: swept.photos[p] == desk.photos[p]
  {
    if carriers != [] {
      var front, last := carriers[..|carriers| - 1], carriers[|carriers| - 1];
      assert carriers == front + [last];
      RemovalsTaken(desk, front, branch, fold);
      LastRemoval(desk, carriers, branch, fold);
      RemovalTaken(Applied(desk, Removals(front, branch), fold), last, branch, fold);
      hide DeskAfter, Removals, Applied;
    }
  }

  lemma LastRemoval(desk: Desk, carriers: seq<PhotoId>, branch: seq<KeywordId>, fold: string -> string)
    requires carriers != []
    ensures var front, last := carriers[..|carriers| - 1], carriers[|carriers| - 1];
            Applied(desk, Removals(carriers, branch), fold) ==
            DeskAfter(Taken(Applied(desk, Removals(front, branch), fold), RemoveKeywords(last, branch), true), fold)
  {
    hide DeskAfter;
    var front := carriers[..|carriers| - 1];
    assert Removals(carriers, branch)[..|front|] == Removals(front, branch);
  }

  /** A keyword deleted at once is off every photo before it leaves the vocabulary. */
  lemma DeletionKeeps(s: State, e: Event, fold: string -> string)
    requires e.DeleteKeyword? && CanHappen(s, e)
    ensures var after := Next(s, e, fold).desk;
            && after.tree == s.desk.tree - (set k | k in e.branch) && NoneCarried(after.photos, e.branch)
            && (AllKnown(s.desk) ==> AllKnown(after))
            && (NoMissingParent(s.desk.tree) ==> NoMissingParent(after.tree))
  {
    hide Next, Applied, IsBranch, Removals;
    NextDesk(s, e, fold);
    RemovalsTaken(s.desk, e.carriers, e.branch, fold);
    if NoMissingParent(s.desk.tree) {
      BranchStartsApart(s.desk.tree, e.id, e.branch);
    }
  }

  /** The end of a sweep leaves every photo's keywords known: nobody carries what goes. */
  lemma SweepEndKeepsKnown(desk: Desk, branch: seq<KeywordId>)
    requires AllKnown(desk)
    ensures AllKnown(desk.(tree := TreeAfter(desk, branch)))
  {
  }

  // ---------------------------------------------------------------- no dangling keyword

  /** An undo or a redo leaves a photo with a keyword that it leaves out of the vocabulary. */
  ghost predicate LeavesDangling(s: State, e: Event) {
    && e.Travel? && StackOf(s, e.direction) != [] && DanglesAfter(s, e, WrittenBy(s, e))
  }

  ghost predicate DanglesAfter(s: State, e: Event, changes: Entry)
    requires e.Travel?
  {
    exists p, k :: p in s.desk.photos && k in CarriedLeft(s, e, changes, p) && EntryLeft(s, e, changes, k).None?
  }

  lemma KnownAfter(s: State, e: Event, changes: Entry)
    requires e.Travel?
    ensures AllKnown(Travelled(s.desk, changes, e.direction)) <==> !DanglesAfter(s, e, changes)
  {
    hide Travelled, EntryAfter, CarriedAfter;
    TravelledSays(s.desk, changes, e.direction);
    var after := Travelled(s.desk, changes, e.direction);
    forall p, k | p in s.desk.photos
      ensures k in after.photos[p].keywordIds && k !in after.tree <==>
              k in CarriedLeft(s, e, changes, p) && EntryLeft(s, e, changes, k).None?
    {
      assert Lookup(after.tree, k) == EntryLeft(s, e, changes, k);
    }
  }

  /** **A keyword is left dangling exactly by an undo or a redo** whose changes, as far as they are written, leave it on
      a photo and out of the vocabulary: no edit, no job and no deletion does. */
  lemma DanglesExactly(s: State, e: Event, fold: string -> string)
    requires InStep(s) && CanHappen(s, e)
    ensures AllKnown(Next(s, e, fold).desk) <==> !LeavesDangling(s, e)
  {
    hide Next, WrittenBy, DanglesAfter;
    if e.Travel? {
      TravelSays(s, e, fold);
      KnownAfter(s, e, WrittenBy(s, e));
    } else {
      EditsStayInStep(s, e, fold);
    }
  }

  /** Whatever is no undo, no redo and no end of a sweep keeps the keywords known and the parents there. */
  lemma EditsStayInStep(s: State, e: Event, fold: string -> string)
    requires AllKnown(s.desk) && CanHappen(s, e) && !e.Travel?
    ensures AllKnown(Next(s, e, fold).desk)
    ensures NoMissingParent(s.desk.tree) && !EndsSweep(s, e) ==> NoMissingParent(Next(s, e, fold).desk.tree)
  {
    NextDesk(s, e, fold);
    if e.DeleteKeyword? {
      DeletionKeeps(s, e, fold);
    } else if e.Reshape? {
      hide Next, DeskAfter, Applied, AllApply;
    } else {
      if e.Do? {
        EditsKeep(s.desk, e.edits, fold);
      } else if e.CoordinatorTakes? && s.inbound[0].BatchItem? {
        ItemKeeps(Taken(s.desk, s.inbound[0].edit, e.writes), fold);
      } else if EndsSweep(s, e) {
        SweepEndKeepsKnown(s.desk, s.jobs[s.inbound[0].job].kind.branch);
      }
      hide Next, CanHappen, DeskAfter, Applied, AllApply, TreeAfter, AllKnown, NoMissingParent;
    }
  }

  /** **Undoing or redoing a change of the vocabulary keeps every keyword known exactly when nobody carries what it
      takes out.** */
  lemma VocabularyTravelDanglesExactly(s: State, e: Event, deltas: seq<KeywordDelta>)
    requires InStep(s) && CanHappen(s, e) && e.Travel? && Proper(deltas)
    requires TakenStep(s, e.direction) == [VocabularyChange(deltas)]
    ensures LeavesDangling(s, e) <==>
            exists p, k :: p in s.desk.photos && k in s.desk.photos[p].keywordIds && TakenOut(deltas, e.direction, k)
  {
    var changes := [VocabularyChange(deltas)];
    assert Ordered(changes, e.direction) == changes && changes[..0] == [] && [] + changes == changes;
    assert PhotoOf(changes[0]).None? && HasStateChange(changes);
    assert Written(s.desk, changes[..0], e.direction) == ([], false);
    assert WrittenBy(s, e) == changes;
    forall p | p in s.desk.photos ensures CarriedLeft(s, e, changes, p) == s.desk.photos[p].keywordIds {
      assert CarriedAfter(s.desk.photos[p].keywordIds, changes[..0], e.direction, p) == s.desk.photos[p].keywordIds;
    }
    forall p, k | p in s.desk.photos && k in s.desk.photos[p].keywordIds
      ensures EntryLeft(s, e, changes, k).None? <==> TakenOut(deltas, e.direction, k)
    {
      assert EntryAfter(Lookup(s.desk.tree, k), changes[..0], e.direction, k) == Lookup(s.desk.tree, k);
      AfterDeltasSays(Lookup(s.desk.tree, k), deltas, e.direction, k);
    }
    hide TakenOut, EntryLeft, CarriedLeft, WrittenBy;
  }

  lemma {:induction false} AfterDeltasSays(entry: Option<KeywordEntry>, deltas: seq<KeywordDelta>, direction: Direction,
                                           k: KeywordId)
    requires entry.Some? && Proper(deltas)
    ensures AfterDeltas(entry, deltas, direction, k).None? <==> TakenOut(deltas, direction, k)
  {
    if deltas != [] {
      var front, last := deltas[..|deltas| - 1], deltas[|deltas| - 1];
      assert Proper(front);
      AfterDeltasSays(entry, front, direction, k);
      if last.id == k {
        assert deltas[|deltas| - 1].id == k;
      } else if i :| 0 <= i < |front| && front[i].id == k && Target(front[i], direction).None? {
        assert deltas[i] == front[i];
      }
    }
  }

  // ---------------------------------------------------------------- how a keyword leaves the vocabulary

  /** The last message of a sweep that holds a keyword, when nobody carries any of the branch. */
  predicate EndsSweepOf(s: State, e: Event, k: KeywordId) {
    && EndsSweep(s, e)
    && var branch := s.jobs[s.inbound[0].job].kind.branch; k in branch && NoneCarried(s.desk.photos, branch)
  }

  /** An undo or a redo takes a keyword out, before it stops. */
  predicate TravelTakesOut(s: State, e: Event, k: KeywordId) {
    e.Travel? && StackOf(s, e.direction) != [] && EntryLeft(s, e, WrittenBy(s, e), k).None?
  }

  /** **A keyword leaves the vocabulary in three ways only**: at the end of a sweep of its branch, when nobody carries
      any of the branch, whether the sweep was cancelled or not; with its branch deleted at once, which nobody carries
      then; and by an undo or a redo, as far as it is written, which asks nobody. */
  lemma KeywordsLeaveExactly(s: State, e: Event, k: KeywordId, fold: string -> string)
    requires InStep(s) && CanHappen(s, e) && k in s.desk.tree
    ensures k !in Next(s, e, fold).desk.tree <==>
            EndsSweepOf(s, e, k) || (e.DeleteKeyword? && k in e.branch) || TravelTakesOut(s, e, k)
    ensures e.DeleteKeyword? ==> NoneCarried(Next(s, e, fold).desk.photos, e.branch)
  {
    if e.Travel? {
      TravelSays(s, e, fold);
      hide Next, CarriedLeft, EntryLeft, WrittenBy;
      assert Lookup(Next(s, e, fold).desk.tree, k).None? <==> k !in Next(s, e, fold).desk.tree;
    } else if e.DeleteKeyword? {
      DeletionKeeps(s, e, fold);
      hide Next, IsBranch, NoneCarried;
    } else {
      NextDesk(s, e, fold);
      if e.Do? {
        EditsKeep(s.desk, e.edits, fold);
      } else if e.CoordinatorTakes? && s.inbound[0].BatchItem? {
        ItemKeeps(Taken(s.desk, s.inbound[0].edit, e.writes), fold);
      }
      hide Next, CanHappen, InStep, DeskAfter, Applied, AllApply, NoneCarried;
    }
  }

  // ---------------------------------------------------------------- parents

  /** **The end of a sweep keeps every parent exactly when nothing that stays hangs from what goes**, and only then does
      its step of the journal hold the deletion. */
  lemma SweepKeepsParentsExactly(desk: Desk, branch: seq<KeywordId>)
    requires NoMissingParent(desk.tree) && NoneCarried(desk.photos, branch) && exists k :: k in branch && k in desk.tree
    ensures NoMissingParent(TreeAfter(desk, branch)) <==> !KeptUnder(desk.tree, branch)
    ensures Deletion(desk, branch) != [] <==> !KeptUnder(desk.tree, branch)
  {
    SweepKeepsParents(desk, branch);
  }

  lemma SweepKeepsParents(desk: Desk, branch: seq<KeywordId>)
    requires NoMissingParent(desk.tree)
    ensures NoMissingParent(TreeAfter(desk, branch)) <==>
              !(NoneCarried(desk.photos, branch) && KeptUnder(desk.tree, branch))
  {
    hide NoneCarried;
    if k :| k in desk.tree && k !in branch && desk.tree[k].parent.Some? && desk.tree[k].parent.value in branch {
      assert NoneCarried(desk.photos, branch) ==> k in TreeAfter(desk, branch);
    }
  }

  /** The end of a sweep takes out what something that stays hangs from. */
  predicate EndsUnderKept(s: State, e: Event) {
    && EndsSweep(s, e)
    && var branch := s.jobs[s.inbound[0].job].kind.branch;
       NoneCarried(s.desk.photos, branch) && KeptUnder(s.desk.tree, branch)
  }

  /** An undo or a redo leaves a keyword whose parent it leaves out. */
  ghost predicate TravelOrphans(s: State, e: Event) {
    && e.Travel? && StackOf(s, e.direction) != []
    && exists k :: var left := EntryLeft(s, e, WrittenBy(s, e), k);
                   && left.Some? && left.value.parent.Some?
                   && EntryLeft(s, e, WrittenBy(s, e), left.value.parent.value).None?
  }

  /** **No event leaves a parent missing** but the end of a sweep under which something was kept, and an undo or a redo
      that leaves a keyword without the parent it names, where it stops. */
  lemma ParentsStay(s: State, e: Event, fold: string -> string)
    requires InStep(s) && CanHappen(s, e)
    ensures NoMissingParent(Next(s, e, fold).desk.tree) <==> !EndsUnderKept(s, e) && !TravelOrphans(s, e)
  {
    hide Next, TreeAfter, NoneCarried, KeptUnder, NoMissingParent;
    if e.Travel? {
      TravelParents(s, e, fold);
    } else if EndsSweep(s, e) {
      NextDesk(s, e, fold);
      SweepKeepsParents(s.desk, s.jobs[s.inbound[0].job].kind.branch);
    } else {
      EditsStayInStep(s, e, fold);
    }
  }

  /** The vocabulary an undo or a redo leaves holds the entries it leaves. */
  lemma TreeLeft(s: State, e: Event, fold: string -> string)
    requires CanHappen(s, e) && e.Travel?
    ensures forall k :: (k in Next(s, e, fold).desk.tree <==> EntryLeft(s, e, WrittenBy(s, e), k).Some?)
    ensures forall k | k in Next(s, e, fold).desk.tree ::
              Next(s, e, fold).desk.tree[k] == EntryLeft(s, e, WrittenBy(s, e), k).value
  {
    hide Next, CarriedLeft, EntryLeft, WrittenBy;
    TravelSays(s, e, fold);
    var tree := Next(s, e, fold).desk.tree;
    forall k
      ensures k in tree <==> EntryLeft(s, e, WrittenBy(s, e), k).Some?
      ensures k in tree ==> tree[k] == EntryLeft(s, e, WrittenBy(s, e), k).value
    {
      assert Lookup(tree, k) == EntryLeft(s, e, WrittenBy(s, e), k);
    }
  }

  lemma TravelParents(s: State, e: Event, fold: string -> string)
    requires CanHappen(s, e) && e.Travel?
    ensures NoMissingParent(Next(s, e, fold).desk.tree) <==> !TravelOrphans(s, e)
  {
    hide Next, CarriedLeft, EntryLeft, WrittenBy;
    TreeLeft(s, e, fold);
    var tree := Next(s, e, fold).desk.tree;
    assert NoMissingParent(tree) <==> forall k | k in tree :: tree[k].parent.Some? ==> tree[k].parent.value in tree;
  }

  // ---------------------------------------------------------------- the catalogue in step

  /** An undo or a redo leaves a keyword dangling, at its end or on its way there. */
  ghost predicate DanglesOnTheWay(s: State, e: Event) {
    && e.Travel? && StackOf(s, e.direction) != []
    && exists n :: 0 <= n <= |WrittenBy(s, e)| && DanglesAfter(s, e, WrittenBy(s, e)[..n])
  }

  /** What costs the catalogue its step. */
  ghost predicate GoesAstray(s: State, e: Event) { EndsUnderKept(s, e) || TravelOrphans(s, e) || DanglesOnTheWay(s, e) }

  lemma StepsKnown(s: State, e: Event, fold: string -> string)
    requires InStep(s) && CanHappen(s, e) && e.Travel?
    ensures InStep(Next(s, e, fold)) <==>
            NoMissingParent(Next(s, e, fold).desk.tree) && AllKnownAlong(s.desk, WrittenBy(s, e), e.direction)
  {
    hide Travelled, Written, Drops, AllKnown, AllKnownAlong, NoMissingParent, TakenStep, CarriedLeft, EntryLeft;
    var changes := WrittenBy(s, e);
    TravelSays(s, e, fold);
    KnownAtBothEnds(s.desk, changes, e.direction);
  }

  lemma KnownAtBothEnds(desk: Desk, changes: Entry, direction: Direction)
    requires AllKnown(desk)
    ensures AllKnownAlong(desk, changes, direction) ==> AllKnown(Travelled(desk, changes, direction))
    ensures changes == [] ==> AllKnownAlong(desk, changes, direction)
  {
    hide AllKnown, Travelled;
    NothingTravelled(desk, direction);
    assert changes[..|changes|] == changes && changes[..0] == [];
  }

  /** **The catalogue stays in step exactly** until a sweep ends under something that was kept, or an undo or a redo
      leaves a keyword without its parent or a photo with a keyword that is gone. */
  lemma StaysInStepExactly(s: State, e: Event, fold: string -> string)
    requires InStep(s) && CanHappen(s, e)
    ensures InStep(Next(s, e, fold)) <==> !GoesAstray(s, e)
  {
    ParentsStay(s, e, fold);
    if e.Travel? {
      StepsKnown(s, e, fold);
      hide InStep, Next, WrittenBy, TravelOrphans, EndsUnderKept, DanglesAfter, NoMissingParent, AllKnown;
      var changes := WrittenBy(s, e);
      forall n | 0 <= n <= |changes|
        ensures AllKnown(Travelled(s.desk, changes[..n], e.direction)) <==> !DanglesAfter(s, e, changes[..n])
      {
        KnownAfter(s, e, changes[..n]);
      }
    } else {
      EditsStayInStep(s, e, fold);
      InStepFlag(s, e, fold);
      hide Next, AllKnown, NoMissingParent, EndsUnderKept, TravelOrphans;
    }
  }

  lemma InStepFlag(s: State, e: Event, fold: string -> string)
    requires InStep(s) && CanHappen(s, e) && !e.Travel?
    ensures var after := Next(s, e, fold); InStep(after) <==> AllKnown(after.desk) && NoMissingParent(after.desk.tree)
  {
    hide AllKnown, NoMissingParent, OutcomeOf, DeskAfter, Looked, Logged, TreeAfter, EntryOf, FinalReport, Applied,
      LogOf, AllApply, ChangesOf, DeleteDeltas, Starts, IsBranch, AreCarriers, CanLook, Removals;
  }

  /** **No keyword dangles**: in every reachable state, sweeps under way or cancelled and commands, undo and redo in
      between, every keyword a photo carries is in the vocabulary and every parent is there, until something costs the
      catalogue its step. */
  lemma NothingEverDangles(states: seq<State>, events: seq<Event>, n: nat, fold: string -> string)
    requires Run(states, events, fold) && InStep(states[0]) && n <= |events|
    requires forall i | 0 <= i < n :: !GoesAstray(states[i], events[i])
    ensures InStep(states[n])
  {
    hide InStep, Next, CanHappen, GoesAstray;
    InStepAlong(states, events, 0, n, fold);
  }

  lemma {:induction false} InStepAlong(states: seq<State>, events: seq<Event>, m: nat, n: nat, fold: string -> string)
    requires Run(states, events, fold) && m <= n <= |events| && InStep(states[m])
    requires forall i | m <= i < n :: !GoesAstray(states[i], events[i])
    ensures InStep(states[n])
  {
    hide InStep, Next, CanHappen, GoesAstray;
    if m < n {
      InStepAlong(states, events, m, n - 1, fold);
      StaysInStepExactly(states[n - 1], events[n - 1], fold);
    }
  }

  // ---------------------------------------------------------------- what is put under a branch

  /** A keyword outside the branch is put under it. */
  ghost predicate PutsUnder(s: State, e: Event, branch: seq<KeywordId>, fold: string -> string) {
    match e
    case Do(edits, writes) =>
      && writes && AllApply(s.desk, edits, fold)
      && exists n :: 0 <= n < |edits| && MakesUnderAt(s.desk, edits, n, branch, fold)
    case CoordinatorTakes(writes) =>
      s.inbound != [] && s.inbound[0].BatchItem? && MakesUnder(Taken(s.desk, s.inbound[0].edit, writes), branch, fold)
    case Reshape(entry) => entry.id !in branch && entry.parent.Some? && entry.parent.value in branch
    case Travel(direction) =>
      && StackOf(s, direction) != []
      && exists k :: k !in branch && var left := EntryLeft(s, e, WrittenBy(s, e), k);
                     left.Some? && left.value.parent.Some? && left.value.parent.value in branch
    case _ => false
  }

  predicate MakesUnder(a: Taken, branch: seq<KeywordId>, fold: string -> string) {
    && a.edit.CreateKeyword? && !OutcomeOf(a, fold).NotApplied?
    && a.edit.id !in branch && a.edit.parent.Some? && a.edit.parent.value in branch
  }

  /** The edit at `n` of several does. */
  predicate MakesUnderAt(desk: Desk, edits: seq<Edit>, n: nat, branch: seq<KeywordId>, fold: string -> string)
    requires n < |edits|
  {
    MakesUnder(Taken(Applied(desk, edits[..n], fold), edits[n], true), branch, fold)
  }

  /** Nothing outside the branch names one of it as its parent. */
  predicate Apart(tree: Tree, branch: seq<KeywordId>) {
    forall k | k in tree && k !in branch && tree[k].parent.Some? :: tree[k].parent.value !in branch
  }

  lemma ItemStaysApart(a: Taken, branch: seq<KeywordId>, fold: string -> string)
    ensures Apart(DeskAfter(a, fold).tree, branch) <==> Apart(a.before.tree, branch) && !MakesUnder(a, branch, fold)
  {
    if a.edit.CreateKeyword? && !OutcomeOf(a, fold).NotApplied? {
      var tree := a.before.tree;
      var plan := PlanCreate(tree, a.edit.name, a.edit.parent, a.edit.id, fold);
      OverlayOne(tree, plan.deltas[0], Redo);
      assert plan.deltas == [plan.deltas[0]];
      var made := DeskAfter(a, fold).tree;
      assert made == tree[a.edit.id := plan.deltas[0].after.value] && a.edit.id !in tree;
      assert made[a.edit.id].parent == a.edit.parent;
      assert forall k | k in tree :: k in made && made[k] == tree[k];
    }
  }

  lemma {:induction false} EditsStayApart(desk: Desk, edits: seq<Edit>, branch: seq<KeywordId>, fold: string -> string)
    ensures Apart(Applied(desk, edits, fold).tree, branch) <==>
            && Apart(desk.tree, branch)
            && forall n | 0 <= n < |edits| :: !MakesUnderAt(desk, edits, n, branch, fold)
  {
    hide DeskAfter, Apart, MakesUnder, MakesUnderAt;
    if edits != [] {
      var front, last := edits[..|edits| - 1], |edits| - 1;
      EditsStayApart(desk, front, branch, fold);
      ItemStaysApart(Taken(Applied(desk, front, fold), edits[last], true), branch, fold);
      MakesUnderLast(desk, edits, branch, fold);
      forall n | 0 <= n < last
        ensures MakesUnderAt(desk, edits, n, branch, fold) <==> MakesUnderAt(desk, front, n, branch, fold)
      {
        MakesUnderBefore(desk, edits, n, branch, fold);
      }
    }
  }

  lemma MakesUnderLast(desk: Desk, edits: seq<Edit>, branch: seq<KeywordId>, fold: string -> string)
    requires edits != []
    ensures var front, last := edits[..|edits| - 1], |edits| - 1;
            MakesUnderAt(desk, edits, last, branch, fold) <==>
              MakesUnder(Taken(Applied(desk, front, fold), edits[last], true), branch, fold)
  {
    hide MakesUnder, Applied;
  }

  lemma MakesUnderBefore(desk: Desk, edits: seq<Edit>, n: nat, branch: seq<KeywordId>, fold: string -> string)
    requires n < |edits| - 1
    ensures MakesUnderAt(desk, edits, n, branch, fold) <==>
              MakesUnderAt(desk, edits[..|edits| - 1], n, branch, fold)
  {
    hide MakesUnder, Applied;
    assert edits[..|edits| - 1][..n] == edits[..n];
  }

  /** A branch stays apart through every event that does not put a keyword under it. */
  lemma StaysApart(s: State, e: Event, branch: seq<KeywordId>, fold: string -> string)
    requires InStep(s) && Apart(s.desk.tree, branch) && CanHappen(s, e)
    ensures Apart(Next(s, e, fold).desk.tree, branch) <==> !PutsUnder(s, e, branch, fold)
  {
    hide Next, IsBranch, NoneCarried, AllKnown;
    if e.Travel? {
      TravelApart(s, e, branch, fold);
    } else if e.DeleteKeyword? {
      DeletionKeeps(s, e, fold);
    } else {
      OthersStayApart(s, e, branch, fold);
    }
  }

  lemma TravelApart(s: State, e: Event, branch: seq<KeywordId>, fold: string -> string)
    requires CanHappen(s, e) && e.Travel?
    ensures Apart(Next(s, e, fold).desk.tree, branch) <==> !PutsUnder(s, e, branch, fold)
  {
    hide Next, CarriedLeft, EntryLeft, WrittenBy, Applied, AllApply, MakesUnder;
    TreeLeft(s, e, fold);
  }

  lemma OthersStayApart(s: State, e: Event, branch: seq<KeywordId>, fold: string -> string)
    requires Apart(s.desk.tree, branch) && CanHappen(s, e) && !e.Travel? && !e.DeleteKeyword?
    ensures Apart(Next(s, e, fold).desk.tree, branch) <==> !PutsUnder(s, e, branch, fold)
  {
    NextDesk(s, e, fold);
    if e.Do? {
      EditsStayApart(s.desk, e.edits, branch, fold);
      hide Next, CanHappen, Applied, AllApply, MakesUnder, Apart;
    } else if e.CoordinatorTakes? && s.inbound[0].BatchItem? {
      ItemStaysApart(Taken(s.desk, s.inbound[0].edit, e.writes), branch, fold);
      hide Next, CanHappen, DeskAfter, MakesUnder, Apart;
    } else {
      if e.Reshape? {
        assert s.desk.tree[e.entry.id := e.entry][e.entry.id] == e.entry;
      }
      hide Next, CanHappen, DeskAfter, NoneCarried, MakesUnder, AllApply, Applied;
    }
  }

  lemma BranchStartsApart(tree: Tree, id: KeywordId, branch: seq<KeywordId>)
    requires NoMissingParent(tree) && IsBranch(tree, id, branch)
    ensures Apart(tree, branch)
  {
    forall k | k in tree && k !in branch && tree[k].parent.Some? ensures tree[k].parent.value !in branch {
      if tree[k].parent.value in branch {
        ChildIsUnder(tree, k, id);
      }
    }
  }

  lemma {:induction false} ApartAlongRun(states: seq<State>, events: seq<Event>, m: nat, n: nat,
                                         branch: seq<KeywordId>, fold: string -> string)
    requires Run(states, events, fold) && m <= n <= |events| && InStep(states[m]) && Apart(states[m].desk.tree, branch)
    requires forall i | m <= i < n :: !PutsUnder(states[i], events[i], branch, fold)
    requires forall i | m <= i < n :: !GoesAstray(states[i], events[i])
    ensures Apart(states[n].desk.tree, branch)
  {
    hide Apart, Next, CanHappen, PutsUnder, InStep, GoesAstray;
    if m < n {
      ApartAlongRun(states, events, m, n - 1, branch, fold);
      InStepAlong(states, events, m, n - 1, fold);
      StaysApart(states[n - 1], events[n - 1], branch, fold);
    }
  }
}
