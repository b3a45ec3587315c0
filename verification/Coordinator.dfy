// The single writer: the photos, the vocabulary and the collections of the workspace, the catalogue that mirrors them
// and the journal of what was done, changed by one command at a time and always in step.
module Coordinator {
  import opened Wrappers
  import opened Text
  import opened Vocabulary
  import opened VocabularyEdits
  import VocabularyChanges
  import opened KeywordIndex
  import opened PhotoMetadata
  import opened PlaceNames
  import opened Journal
  import opened Worlds
  import WorldChanges
  import opened PhotoEdits
  import PhotoChanges
  import CollectionTree
  import CollectionBranch
  import CollectionEdits
  import CollectionChanges
  import AcceptedChanges
  import AcceptedShares

  /** A path refresh waiting for its turn: the photos it touches, and the paths as of the change that asked for it. */
  datatype RefreshRequest = RefreshRequest(photos: set<PhotoId>, paths: map<KeywordId, string>)

  datatype EditResult = Failed(why: EditError) | Done(change: Option<Change>)

  datatype BatchOutcome = Started | Applied(changes: Entry) | BatchFailed(why: EditError, at: nat)

  datatype DeleteOutcome = DeleteRefused | DeleteStarted | DeleteFailed | Deleted(branch: seq<KeywordId>,
      swept: set<PhotoId>)

  function WhyFailed(result: EditResult): Option<EditError> {
    if result.Failed? then Some(result.why) else None
  }

  function AllPaths(tree: Tree): map<KeywordId, string> { map k | k in tree :: PathOf(tree, k) }

  function Views(photos: map<PhotoId, Metadata>): map<PhotoId, PhotoView> {
    map p | p in photos :: ViewOf(photos[p])
  }

  /** What the photos carry. */
  function Carrying(photos: map<PhotoId, Metadata>): set<(PhotoId, KeywordId)> {
    set p, k | p in photos && k in photos[p].keywordIds :: (p, k)
  }

  predicate AllNormal(photos: map<PhotoId, Metadata>) { forall p | p in photos :: Normal(photos[p]) }

  /** No change, or one that leads from a world to the other and back. */
  predicate Explains(change: Option<Change>, before: World, after: World, fold: string -> string) {
    match change
    case None => before == after
    case Some(c) => Leads(c, before, after, fold)
  }

  /** The change taken back brings the path snapshots there were before it. */
  predicate RecordsPaths(change: Option<Change>, was: map<PhotoId, seq<string>>, after: map<PhotoId, seq<string>>) {
    was == if change.Some? then StepPaths(after, change.value, Undo) else after
  }

  lemma OtherChangesKeepPaths(paths: map<PhotoId, seq<string>>, change: Change, direction: Direction)
    requires !change.KeywordsChange?
    ensures StepPaths(paths, change, direction) == paths
    ensures direction == Undo ==> RecordsPaths(Some(change), paths, paths)
  {
  }

  lemma EditGoesBackToPaths(photos: map<PhotoId, Metadata>, photo: PhotoId, after: Metadata, change: Option<Change>)
    requires photo in photos && (change.Some? ==> PhotoOf(change.value) == Some(photo))
    requires if change.Some? && change.value.KeywordsChange?
             then change.value.keywordsBefore.paths == photos[photo].keywordPaths
             else after.keywordPaths == photos[photo].keywordPaths
    ensures RecordsPaths(change, Snapshots(photos), Snapshots(photos[photo := after]))
  {
  }

  lemma ViewsPut(photos: map<PhotoId, Metadata>, photo: PhotoId, meta: Metadata)
    ensures Views(photos[photo := meta]) == Views(photos)[photo := ViewOf(meta)]
  {
  }

  lemma CarryingPut(photos: map<PhotoId, Metadata>, photo: PhotoId, meta: Metadata)
    ensures Carrying(photos[photo := meta]) ==
            (set c | c in Carrying(photos) && c.0 != photo :: c) + set k | k in meta.keywordIds :: (photo, k)
  {
  }

  lemma GoodHasParents(world: World, fold: string -> string)
    requires Good(world, fold)
    ensures NoMissingParent(world.tree)
  {
  }

  /** A photo rewritten with keywords of the vocabulary and metadata that reads back leaves a good world. */
  lemma GoodPut(world: World, photo: PhotoId, view: PhotoView, fold: string -> string)
    requires Good(world, fold) && NormalView(view) && forall k | k in view.keywordIds :: k in world.tree
    ensures Good(world.(photos := world.photos[photo := view]), fold)
  {
    hide WellFormed;
  }

  class Coordinator {
    const fold: string -> string
    const history: History
    const catalogue: Catalogue
    var photos: map<PhotoId, Metadata>
    var vocabulary: seq<KeywordEntry>
    var collections: map<CollectionId, Collection>
    var series: map<SeriesId, Series>
    var refreshRunning: Option<RefreshRequest>
    var refreshQueue: seq<RefreshRequest>
    /** The states the steps of the journal lead between: the one before the oldest step first. */
    ghost var trail: seq<World>

    /** The workspace as it is compared. */
    function View(): World
      reads this
    {
      World(Views(photos), ById(vocabulary), collections, series)
    }

    /** The workspace is good, and the catalogue says the same as a rebuild would. */
    ghost predicate InStep()
      reads this, catalogue
    {
      && Distinct(vocabulary) && AllNormal(photos) && Good(View(), fold)
      && catalogue.keyword == BuildRows(ById(vocabulary))
      && catalogue.photoKeyword == Carrying(photos)
    }

    /** Opens a workspace that is good: the catalogue is built from it, and the journal is empty. */
    constructor (fold: string -> string, limit: nat, photos: map<PhotoId, Metadata>, vocabulary: seq<KeywordEntry>,
                 collections: map<CollectionId, Collection>, series: map<SeriesId, Series>)
      requires Distinct(vocabulary) && AllNormal(photos)
      requires Good(World(Views(photos), ById(vocabulary), collections, series), fold)
      ensures Valid() && fresh(history) && fresh(catalogue) && this.fold == fold
      ensures this.photos == photos && this.vocabulary == vocabulary
      ensures this.collections == collections && this.series == series
      ensures history.undo == [] && history.redo == [] && history.limit == (if limit < 1 then 1 else limit)
              && trail == [View()]
    {
      hide Good, WellFormed, BuildRows, ById, Views, AllNormal, Distinct, NoMissingParent, Mirrors, Carrying;
      this.fold := fold;
      history := new History.WithLimit(limit);
      GoodHasParents(World(Views(photos), ById(vocabulary), collections, series), fold);
      var built := Build(vocabulary);
      catalogue := new Catalogue(built.value);
      this.photos, this.vocabulary, this.collections, this.series := photos, vocabulary, collections, series;
      refreshRunning, refreshQueue := None, [];
      trail := [World(Views(photos), ById(vocabulary), collections, series)];
      new;
      IndexPhotos();
    }

    /** The catalogue's rows of what the photos carry, of each photo in turn. */
    method IndexPhotos()
      requires catalogue.photoKeyword == {} && catalogue.keyword == BuildRows(ById(vocabulary)) && Good(View(), fold)
      modifies catalogue`photoKeyword
      ensures catalogue.photoKeyword == Carrying(photos)
    {
      hide BuildRows, ById, WellFormed;
      var rest := photos.Keys;
      while rest != {}
        invariant rest <= photos.Keys
        invariant catalogue.photoKeyword == set c | c in Carrying(photos) && c.0 !in rest :: c
        decreases rest
      {
        var photo :| photo in rest;
        CarriedIsKnown(View(), photo);
        BuiltRows(ById(vocabulary));
        var ok := catalogue.ApplyPhotoKeywords(photo, photos[photo].keywordIds);
        rest := rest - {photo};
      }
    }

    lemma ViewCarries(meta: Metadata)
      ensures ViewOf(meta).keywordIds == meta.keywordIds
    {
    }

    lemma AbsentFromView(photo: PhotoId)
      requires photo !in photos
      ensures photo !in View().photos
    {
    }

    /** A photo comes in, from an import: no action of the person's, so every state of the trail has it and every step
        leads where it led, when what the photo carries was in the vocabulary of them all. */
    method PhotoArrives(photo: PhotoId, meta: Metadata)
      requires Valid() && photo !in photos && Normal(meta) && AllIn(meta.keywordIds, ById(vocabulary))
      requires KnownInTrail(trail, history.undo, history.redo, meta.keywordIds)
      modifies `photos, `trail, catalogue
      ensures Valid() && photos == old(photos)[photo := meta]
      ensures View() == Joined(old(View()), photo, ViewOf(meta))
      ensures trail == JoinedTrail(old(trail), photo, ViewOf(meta)) && |trail| == |old(trail)|
      ensures forall i | 0 <= i < |trail| ::
                trail[i] == old(trail)[i].(photos := old(trail)[i].photos[photo := ViewOf(meta)])
    {
      hide Good, WellFormed, Linked, Views, ViewOf, Normal, KnownInTrail;
      NormalHasNormalView(meta);
      ViewCarries(meta);
      AbsentFromView(photo);
      ghost var steps := trail;
      TrailJoined(trail, history.undo, history.redo, |history.undo|, photo, ViewOf(meta), fold);
      PersistPhoto(photo, meta);
      trail := JoinedTrail(steps, photo, ViewOf(meta));
    }

    // -------------------------------------------------------------- writing

    /** Writes a photo and brings the catalogue's rows in line. */
    method PersistPhoto(photo: PhotoId, meta: Metadata)
      requires InStep() && Normal(meta) && forall k | k in meta.keywordIds :: k in ById(vocabulary)
      modifies `photos, catalogue
      ensures photos == old(photos)[photo := meta] && InStep()
      ensures View() == old(View()).(photos := old(View()).photos[photo := ViewOf(meta)])
    {
      hide WellFormed, Good;
      ghost var before := View();
      ViewsPut(photos, photo, meta);
      CarryingPut(photos, photo, meta);
      NormalHasNormalView(meta);
      GoodPut(before, photo, ViewOf(meta), fold);
      photos := photos[photo := meta];
      var ok := catalogue.ApplyPhotoKeywords(photo, meta.keywordIds);
    }

    /** The vocabulary's list with the deltas made. */
    method ChangedVocabulary(deltas: seq<KeywordDelta>, direction: Direction) returns (changed: seq<KeywordEntry>)
      ensures changed == ApplyDeltas(vocabulary, deltas, direction)
    {
      changed := vocabulary;
      for n := 0 to |deltas|
        invariant changed == ApplyDeltas(vocabulary, deltas[..n], direction)
      {
        assert deltas[..n + 1][..n] == deltas[..n];
        changed := WithoutId(changed, deltas[n].id);
        match Target(deltas[n], direction) {
          case Some(entry) => changed := changed + [entry];
          case None =>
        }
      }
      assert deltas[..|deltas|] == deltas;
    }

    /** Puts the vocabulary in the state the deltas lead to: the file, the catalogue's rows, and, for the photos that
        carry what changed, a refresh of their path snapshots in the background. */
    method ApplyVocabulary(deltas: seq<KeywordDelta>, direction: Direction, alwaysJob: bool)
      returns (affected: set<PhotoId>)
      requires InStep() && Proper(deltas)
      requires Good(View().(tree := Overlay(ById(vocabulary), deltas, direction)), fold)
      modifies `vocabulary, `refreshRunning, `refreshQueue, catalogue
      ensures InStep()
      ensures View() == old(View()).(tree := Overlay(old(ById(vocabulary)), deltas, direction))
      ensures affected == Carriers(photos, ById(vocabulary), deltas, direction)
      ensures RefreshAsked(deltas, direction, alwaysJob, old(refreshRunning), old(refreshQueue))
    {
      hide WellFormed, Overlay, ApplyDeltas, Carrying, BuildRows, Rewritten, Carriers, Views, AllNormal, NormalView,
        TakenOut;
      ghost var before := ById(vocabulary);
      ApplyDeltasIsOverlay(vocabulary, deltas, direction);
      ghost var world := View().(tree := Overlay(before, deltas, direction));
      WellFormedNames(Overlay(before, deltas, direction), fold);
      NothingTakenOutIsCarried(world, photos, deltas, direction);
      vocabulary := ChangedVocabulary(deltas, direction);
      hide Good, WellFormed;
      var ok, changed := catalogue.Follow(before, vocabulary, deltas, direction);
      affected := set c | c in catalogue.photoKeyword && c.1 in changed :: c.0;
      AffectedAreCarriers(photos, changed, ById(vocabulary), deltas, direction);
      if affected != {} || alwaysJob {
        var paths := KeywordPaths(vocabulary);
        QueueRefresh(RefreshRequest(affected, paths));
      }
    }

    /** A refresh was asked for: it runs when none did, and else waits behind the others. */
    predicate Queued(request: RefreshRequest, running: Option<RefreshRequest>, waiting: seq<RefreshRequest>)
      reads `refreshRunning, `refreshQueue
    {
      if running.None? then refreshRunning == Some(request) && refreshQueue == waiting
      else refreshRunning == running && refreshQueue == waiting + [request]
    }

    /** The refresh a change of the vocabulary asks for: of the photos that carry what it touched, with the paths as of
        it. */
    predicate RefreshAsked(deltas: seq<KeywordDelta>, direction: Direction, alwaysJob: bool,
                           running: Option<RefreshRequest>, waiting: seq<RefreshRequest>)
      reads `photos, `vocabulary, `refreshRunning, `refreshQueue
    {
      var affected := Carriers(photos, ById(vocabulary), deltas, direction);
      if affected == {} && !alwaysJob then refreshRunning == running && refreshQueue == waiting
      else Queued(RefreshRequest(affected, AllPaths(ById(vocabulary))), running, waiting)
    }

    method QueueRefresh(request: RefreshRequest)
      modifies `refreshRunning, `refreshQueue
      ensures Queued(request, old(refreshRunning), old(refreshQueue))
    {
      if refreshRunning.Some? {
        refreshQueue := refreshQueue + [request];
      } else {
        refreshRunning := Some(request);
      }
    }

    /** Puts the state one change leads to. */
    method WriteChange(change: Change, direction: Direction)
      requires InStep() && Good(Step(View(), change, direction), fold)
      requires PhotoOf(change).Some? ==> PhotoOf(change).value in photos
      requires change.VocabularyChange? ==> Proper(change.keywords)
      modifies `photos, `vocabulary, `collections, `series, `refreshRunning, `refreshQueue, catalogue
      ensures InStep() && View() == Step(old(View()), change, direction)
      ensures WorldChanges.NamesOnce(change) ==> WorldChanges.Turned(old(View()), View(), change, direction)
      ensures Snapshots(photos) == StepPaths(old(Snapshots(photos)), change, direction)
      ensures WorldChanges.PathsTurned(old(Snapshots(photos)), Snapshots(photos), change, direction)
    {
      hide Snapshots, StepPaths, Good, WellFormed, BuildRows, Carrying, Views, Overlay, ApplyToView,
        WorldChanges.Turned, WorldChanges.PathsTurned, WorldChanges.NamesOnce;
      WorldChanges.PathsTurn(Snapshots(photos), change, direction);
      if WorldChanges.NamesOnce(change) {
        WorldChanges.StepTurns(View(), change, direction);
      }
      if PhotoOf(change).None? {
        OtherChangesKeepPaths(Snapshots(photos), change, direction);
      }
      match change {
        case VocabularyChange(deltas) =>
          var affected := ApplyVocabulary(deltas, direction, false);
        case CollectionsChange(deltas) =>
          WriteCollections(deltas, direction);
        case SeriesChange(id, before, after) =>
          series := PutSeries(series, id, Pick(direction, before, after));
        case _ => WritePhotoChange(change, direction);
      }
    }

    method WritePhotoChange(change: Change, direction: Direction)
      requires InStep() && PhotoOf(change).Some? && change.photo in photos
      requires Good(Step(View(), change, direction), fold)
      modifies `photos, catalogue
      ensures InStep() && View() == Step(old(View()), change, direction)
      ensures Snapshots(photos) == StepPaths(old(Snapshots(photos)), change, direction)
    {
      hide Good, ApplyToView, ApplyChange, Snapshots, StepPaths;
      ghost var view := ApplyToView(change, View().photos[change.photo], direction);
      PhotoStep(View(), change, direction, fold);
      NormalIsReadable(change, ViewOf(photos[change.photo]), direction);
      ApplyIsApplyToView(change, photos[change.photo], direction);
      var meta := ApplyChange(change, photos[change.photo], direction);
      SnapshotsPut(photos, change, direction);
      assert view.keywordIds == meta.keywordIds;
      PersistPhoto(change.photo, meta);
    }

    method WriteCollections(deltas: seq<CollectionDelta>, direction: Direction)
      modifies `collections
      ensures collections == PutCollections(old(collections), deltas, direction)
    {
      for n := 0 to |deltas|
        invariant collections == PutCollections(old(collections), deltas[..n], direction)
      {
        assert deltas[..n + 1][..n] == deltas[..n];
        match Pick(direction, deltas[n].before, deltas[n].after) {
          case Some(c) => collections := collections[deltas[n].id := c];
          case None => collections := collections - {deltas[n].id};
        }
      }
      assert deltas[..|deltas|] == deltas;
    }

    // -------------------------------------------------------------- the journal and its trail

    /** Every step of the journal leads between two states of the trail, and the journal stands at `world`. */
    ghost predicate Journalled(world: World)
      reads this`trail, history
    {
      history.Valid() && TrailOk(trail, history.undo, history.redo, fold) && trail[|history.undo|] == world
    }

    ghost predicate Valid()
      reads this, catalogue, history
    {
      InStep() && Journalled(View())
    }

    /** One more action was recorded: the states before it are where they were, and the one it started from is the last
        but one. */
    ghost predicate Extends(was: seq<World>, at: nat, before: World)
      requires at < |was|
      reads this, history
    {
      |trail| > 1 && trail[|trail| - 2] == before && trail == TrailAfter(was, at, View(), history.limit)
    }

    /** What an action leaves of the journal: one more step, of its changes; or the journal as it was, when there are
        none. */
    ghost predicate OneStepMore(changes: Entry, undo: seq<Entry>, redo: seq<Entry>, was: seq<World>, before: World)
      requires |undo| < |was|
      reads this, history
    {
      if changes == [] then history.undo == undo && history.redo == redo && trail == was && View() == before
      else history.undo == Newest(undo + [changes], history.limit) && history.redo == [] && Extends(was, |undo|, before)
    }

    /** Puts one more action in the journal. */
    method Record(changes: Entry, ghost before: World)
      requires InStep() && Journalled(before) && Linked(changes, before, View(), fold)
      modifies `trail, history
      ensures Valid() && View() == old(View())
      ensures changes == [] ==>
                history.undo == old(history.undo) && history.redo == old(history.redo) && trail == old(trail)
      ensures changes != [] ==>
                && history.undo == Newest(old(history.undo) + [changes], history.limit) && history.redo == []
                && |history.undo| > 0 && |trail| > 1 && trail[|trail| - 2] == before
                && trail == TrailAfter(old(trail), |old(history.undo)|, View(), history.limit)
    {
      hide KeepsNewest, Good, Linked, AllNormal, Distinct, Carrying, BuildRows, Views, ById;
      if changes == [] {
        NothingLinked(before, View(), fold);
        return;
      }
      TrailRecords(trail, history.undo, history.redo, changes, View(), history.limit, fold);
      trail := TrailAfter(trail, |history.undo|, View(), history.limit);
      history.Record(changes);
    }

    /** Takes back changes that were made, newest first: the path snapshots they recorded come back with the rest. */
    method TakeBack(changes: Entry, ghost before: World)
      requires InStep() && Linked(changes, before, View(), fold)
      modifies `photos, `vocabulary, `collections, `series, `refreshRunning, `refreshQueue, catalogue
      ensures InStep() && View() == before
      ensures Snapshots(photos) == PathsBack(old(Snapshots(photos)), changes)
    {
      hide Good, Snapshots, StepPaths;
      var n := |changes|;
      assert changes[..n] == changes;
      while n > 0
        invariant n <= |changes|
        invariant InStep() && Linked(changes[..n], before, View(), fold)
        invariant PathsBack(Snapshots(photos), changes[..n]) == PathsBack(old(Snapshots(photos)), changes)
      {
        ghost var mid := After(changes[..n - 1], before);
        assert changes[..n][..n - 1] == changes[..n - 1];
        LinkedIsAfter(changes[..n - 1], before, mid, fold);
        WriteChange(changes[n - 1], Undo);
        n := n - 1;
      }
    }

    /** Undoes the last action: the state is exactly the one before it, and the step can be redone. */
    method UndoLast() returns (undone: bool)
      requires Valid()
      modifies this, history, catalogue
      ensures Valid() && trail == old(trail)
      ensures undone <==> old(history.undo) != []
      ensures undone ==> View() == old(trail)[|old(history.undo)| - 1]
                         && history.undo == old(history.undo)[..|old(history.undo)| - 1]
                         && history.redo == old(history.redo) + [old(history.undo)[|old(history.undo)| - 1]]
      ensures !undone ==>
                View() == old(View()) && history.undo == old(history.undo) && history.redo == old(history.redo)
    {
      hide InStep, TrailOk, NonEmptyEntries, Linked, Views, ById;
      ghost var steps, later := history.undo, history.redo;
      var taken := history.TakeUndo();
      match taken {
        case None => undone := false;
        case Some(entry) =>
          assert steps == history.undo + [entry];
          UndoneStep(trail, history.undo, entry, later, fold);
          TakeBack(entry, trail[|history.undo|]);
          history.PutRedo(entry);
          undone := true;
      }
    }

    /** Redoes the action that was undone last: the state is exactly the one after it. */
    method RedoNext() returns (redone: bool)
      requires Valid()
      modifies this, history, catalogue
      ensures Valid() && trail == old(trail)
      ensures redone <==> old(history.redo) != []
      ensures redone ==> View() == old(trail)[|old(history.undo)| + 1]
                         && history.undo == old(history.undo) + [old(history.redo)[|old(history.redo)| - 1]]
                         && history.redo == old(history.redo)[..|old(history.redo)| - 1]
      ensures !redone ==>
                View() == old(View()) && history.undo == old(history.undo) && history.redo == old(history.redo)
    {
      hide InStep, TrailOk, NonEmptyEntries, Linked, Views, ById;
      ghost var steps, later := history.undo, history.redo;
      var taken := history.TakeRedo();
      match taken {
        case None => redone := false;
        case Some(entry) =>
          assert later == history.redo + [entry];
          RedoneStep(trail, steps, entry, history.redo, fold);
          DoAgain(entry, trail[|steps|], trail[|steps| + 1]);
          history.PutUndo(entry);
          redone := true;
      }
    }

    /** The changes of an entry made again, oldest first. */
    method DoAgain(changes: Entry, ghost before: World, ghost after: World)
      requires InStep() && View() == before && Linked(changes, before, after, fold)
      modifies `photos, `vocabulary, `collections, `series, `refreshRunning, `refreshQueue, catalogue
      ensures InStep() && View() == after
    {
      hide Good;
      for n := 0 to |changes|
        invariant InStep() && View() == After(changes[..n], before)
      {
        LinkedAt(changes, before, after, n, fold);
        assert changes[..n + 1][..n] == changes[..n];
        WriteChange(changes[n], Redo);
      }
      assert changes[..|changes|] == changes;
      LinkedIsAfter(changes, before, after, fold);
    }

    // -------------------------------------------------------------- edits

    /** What edits change. */
    function AsDesk(): Desk
      reads this
    {
      Desk(photos, ById(vocabulary))
    }

    /** Applies one edit and says what changed; `writes` is whether the write it comes to succeeds. */
    method ApplyEdit(edit: Edit, writes: bool) returns (result: EditResult)
      requires InStep()
      modifies `photos, `vocabulary, `refreshRunning, `refreshQueue, catalogue
      ensures InStep()
      ensures result.Failed? <==> Refusing(old(AsDesk()), edit, fold).Some? || !writes
      ensures result.Failed? ==>
                && photos == old(photos) && vocabulary == old(vocabulary) && View() == old(View())
                && var why := Refusing(old(AsDesk()), edit, fold);
                result.why == if why.Some? then why.value else WriteFailed
      ensures PhotoChanges.EditAnswered(old(AsDesk()), AsDesk(), edit, WhyFailed(result), writes, fold)
      ensures result.Done? ==> PhotoChanges.WorthAStep(old(AsDesk()), AsDesk(), edit, result.change)
      ensures result.Done? ==>
                && AsDesk() == Apply(old(AsDesk()), edit, fold) && collections == old(collections)
                && series == old(series)
                && Explains(result.change, old(View()), View(), fold)
                && RecordsPaths(result.change, old(Snapshots(photos)), Snapshots(photos))
                && (IsPhotoEdit(edit) ==>
                      result.change == ChangeOf(old(photos)[edit.photo], edit, PathFor(old(ById(vocabulary)), edit)))
    {
      hide RecordsPaths, Snapshots, Good, WellFormed, BuildRows, Carrying, ChangeOf, PhotoChanges.EditAnswered,
        PhotoChanges.AsAsked;
      PhotoChanges.AnsweredRight(AsDesk(), AsDesk(), edit, writes, fold);
      var refusal := Refusing(AsDesk(), edit, fold);
      if refusal.Some? {
        return Failed(refusal.value);
      }
      if !writes {
        return Failed(WriteFailed);
      }
      if edit.CreateKeyword? {
        var change := MakeKeyword(edit.name, edit.parent, edit.id);
        result := Done(Some(change));
      } else {
        PhotoChanges.ChangedRight(AsDesk(), edit, fold);
        var change := EditPhoto(edit);
        result := Done(change);
      }
    }

    method EditPhoto(edit: Edit) returns (change: Option<Change>)
      requires InStep() && IsPhotoEdit(edit) && Refusing(AsDesk(), edit, fold).None?
      modifies `photos, catalogue
      ensures InStep() && Explains(change, old(View()), View(), fold)
      ensures RecordsPaths(change, old(Snapshots(photos)), Snapshots(photos))
      ensures photos == old(photos)[edit.photo := Edited(old(photos)[edit.photo], edit,
                                                         PathFor(ById(vocabulary), edit))]
      ensures change == ChangeOf(old(photos)[edit.photo], edit, PathFor(ById(vocabulary), edit))
    {
      var photo := edit.photo;
      var meta := photos[photo];
      ghost var before := View();
      var after := Edit(meta, edit, PathFor(ById(vocabulary), edit));
      change := ChangeOf(meta, edit, PathFor(ById(vocabulary), edit));
      EditRecords(meta, edit, PathFor(ById(vocabulary), edit));
      EditedKeywords(meta, edit, PathFor(ById(vocabulary), edit));
      ChangeIsOfPhoto(meta, edit, PathFor(ById(vocabulary), edit));
      CarriedIsKnown(View(), photo);
      EditRecordsPaths(meta, edit, PathFor(ById(vocabulary), edit));
      EditGoesBackToPaths(photos, photo, after, change);
      hide Edited, ChangeOf, Good, RecordsPaths, Snapshots;
      PersistPhoto(photo, after);
      EditExplains(before, photo, ViewOf(meta), ViewOf(after), change, fold);
    }

    /** The metadata an edit makes; the keywords of a sweep go one by one and the places by the rule. */
    method Edit(meta: Metadata, edit: Edit, path: string) returns (after: Metadata)
      requires IsPhotoEdit(edit)
      ensures after == Edited(meta, edit, path)
    {
      match edit {
        case RemoveKeywords(_, keywords) =>
          after := meta;
          if exists k :: k in meta.keywordIds && k in keywords {
            var left := DropKeywords(KeywordsOf(meta), keywords);
            after := WithKeywords(meta, left);
          }
        case FillPlaceNames(_, fill) =>
          var change;
          after, change := FillPlace(meta, fill);
        case _ => after := Edited(meta, edit, path);
      }
    }

    method MakeKeyword(name: string, parent: Option<KeywordId>, id: KeywordId) returns (change: Change)
      requires InStep() && PlanCreate(ById(vocabulary), name, parent, id, fold).Deltas?
      modifies `vocabulary, `refreshRunning, `refreshQueue, catalogue
      ensures InStep() && Leads(change, old(View()), View(), fold)
      ensures change == VocabularyChange(PlanCreate(old(ById(vocabulary)), name, parent, id, fold).deltas)
      ensures ById(vocabulary) == Overlay(old(ById(vocabulary)), change.keywords, Redo)
      ensures RecordsPaths(Some(change), Snapshots(photos), Snapshots(photos))
    {
      hide InStep, Leads, Good, WellFormed, KeepsForm, RefreshAsked, Views, ById, Overlay, RecordsPaths, Snapshots,
        PlanCreate, Proper;
      var plan := PlanCreate(ById(vocabulary), name, parent, id, fold);
      ListIsFormed();
      CreateKeeps(ById(vocabulary), name, parent, id, fold);
      CreatedIsThere(ById(vocabulary), name, parent, id, fold);
      PlanLeads(plan);
      change := VocabularyChange(plan.deltas);
      OtherChangesKeepPaths(Snapshots(photos), change, Undo);
      var affected := ApplyVocabulary(plan.deltas, Redo, false);
    }

    /** One edit as an action of its own. */
    method Perform(edit: Edit, writes: bool) returns (result: EditResult)
      requires Valid()
      modifies this, history, catalogue
      ensures Valid()
      ensures result.Failed? <==> Refusing(old(AsDesk()), edit, fold).Some? || !writes
      ensures PhotoChanges.EditAnswered(old(AsDesk()), AsDesk(), edit, WhyFailed(result), writes, fold)
      ensures result.Done? ==> PhotoChanges.WorthAStep(old(AsDesk()), AsDesk(), edit, result.change)
      ensures collections == old(collections) && series == old(series)
      ensures OneStepMore(if result.Done? && result.change.Some? then [result.change.value] else [],
                          old(history.undo), old(history.redo), old(trail), old(View()))
    {
      hide InStep, Journalled, ById, Linked, Leads, Refusing, Apply, ChangeOf, Newest, Views,
        PhotoChanges.EditAnswered, PhotoChanges.WorthAStep;
      StartsLinked();
      ghost var before := View();
      result := ApplyEdit(edit, writes);
      if result.Done? && result.change.Some? {
        LinkedAppend([], before, before, result.change.value, View(), fold);
        assert [] + [result.change.value] == [result.change.value];
        Record([result.change.value], before);
      }
    }

    // -------------------------------------------------------------- several edits as one action

    /** Applies several edits as one action, all or nothing: one step of the journal, or, when an edit is refused or
        cannot be written, everything as it was. Past the threshold a background job does it instead. */
    method Batch(edits: seq<Edit>, writes: nat -> bool) returns (outcome: BatchOutcome)
      requires Valid()
      modifies this, history, catalogue
      ensures Valid()
      ensures outcome.Started? <==> |edits| > BACKGROUND_THRESHOLD
      ensures outcome.Started? || outcome.BatchFailed? ==>
                && View() == old(View()) && Snapshots(photos) == old(Snapshots(photos)) && trail == old(trail)
                && history.undo == old(history.undo) && history.redo == old(history.redo)
      ensures outcome.BatchFailed? ==>
                && outcome.at < |edits|
                && (Refusing(ApplyAll(old(AsDesk()), edits[..outcome.at], fold), edits[outcome.at], fold).Some?
                    || !writes(outcome.at))
                && FailedAfter(old(AsDesk()), edits[..outcome.at], edits[outcome.at], outcome.why, writes(outcome.at),
                               fold)
      ensures outcome.Applied? ==> PhotoChanges.AllDone(old(AsDesk()), AsDesk(), edits, fold)
      ensures outcome.Applied? ==>
                && AsDesk() == ApplyAll(old(AsDesk()), edits, fold)
                && (forall n | 0 <= n < |edits| ::
                      writes(n) && Refusing(ApplyAll(old(AsDesk()), edits[..n], fold), edits[n], fold).None?)
                && OneStepMore(outcome.changes, old(history.undo), old(history.redo), old(trail), old(View()))
    {
      hide InStep, Journalled, View, Linked, Refusing, ApplyAll, Newest;
      if |edits| > BACKGROUND_THRESHOLD {
        return Started;
      }
      ghost var before := View();
      outcome := RunEdits(edits, writes);
      if outcome.Applied? {
        if outcome.changes == [] {
          NothingLinked(before, View(), fold);
        }
        Record(outcome.changes, before);
      }
    }

    /** The edits of a batch, one after the other; the first that fails takes back the ones before it. */
    method RunEdits(edits: seq<Edit>, writes: nat -> bool) returns (outcome: BatchOutcome)
      requires InStep()
      modifies `photos, `vocabulary, `collections, `series, `refreshRunning, `refreshQueue, catalogue
      ensures InStep() && !outcome.Started?
      ensures outcome.BatchFailed? ==>
                && View() == old(View()) && Snapshots(photos) == old(Snapshots(photos))
                && outcome.at < |edits|
                && (Refusing(ApplyAll(old(AsDesk()), edits[..outcome.at], fold), edits[outcome.at], fold).Some?
                    || !writes(outcome.at))
                && FailedAfter(old(AsDesk()), edits[..outcome.at], edits[outcome.at], outcome.why, writes(outcome.at),
                               fold)
      ensures outcome.Applied? ==> PhotoChanges.AllDone(old(AsDesk()), AsDesk(), edits, fold)
      ensures outcome.Applied? ==>
                && Linked(outcome.changes, old(View()), View(), fold)
                && AsDesk() == ApplyAll(old(AsDesk()), edits, fold)
                && forall n | 0 <= n < |edits| ::
                     writes(n) && Refusing(ApplyAll(old(AsDesk()), edits[..n], fold), edits[n], fold).None?
    {
      hide *;
      StartsLinked();
      ghost var before, desk, paths := View(), AsDesk(), Snapshots(photos);
      var changes: Entry := [];
      NoEdits(desk, fold);
      PhotoChanges.NoneDone(desk, fold);
      NothingBack(paths);
      assert edits[..0] == [];
      for n := 0 to |edits|
        invariant InStep() && Linked(changes, before, View(), fold)
        invariant AsDesk() == ApplyAll(desk, edits[..n], fold) && PathsBack(Snapshots(photos), changes) == paths
        invariant PhotoChanges.AllDone(desk, AsDesk(), edits[..n], fold)
        invariant forall i | 0 <= i < n :: writes(i) && Refusing(ApplyAll(desk, edits[..i], fold), edits[i], fold).None?
      {
        ghost var mid, midDesk, midPaths := View(), AsDesk(), Snapshots(photos);
        var result := ApplyEdit(edits[n], writes(n));
        EditCameOut(desk, midDesk, AsDesk(), edits, n, result, writes(n), fold);
        if result.Failed? {
          TakeBack(changes, before);
          return BatchFailed(result.why, n);
        }
        OneEditMore(desk, edits, n, fold);
        LinkedMore(changes, before, mid, result.change, View(), fold);
        RecordedMore(changes, result.change, paths, midPaths, Snapshots(photos));
        changes := changes + if result.change.Some? then [result.change.value] else [];
      }
      assert edits[..|edits|] == edits;
      outcome := Applied(changes);
    }

    // -------------------------------------------------------------- the vocabulary

    /** Makes a planned change of the vocabulary as one action. */
    method PerformPlan(plan: Planned, alwaysJob: bool)
      requires Valid() && KeepsForm(ById(vocabulary), plan, fold)
      requires plan.Deltas? ==> plan.deltas != [] && forall d | d in plan.deltas :: d.after.Some?
      modifies this, history, catalogue
      ensures Valid()
      ensures plan.Deltas? ==> View() == old(View()).(tree := Overlay(old(ById(vocabulary)), plan.deltas, Redo))
      ensures OneStepMore(if plan.Deltas? then [VocabularyChange(plan.deltas)] else [],
                          old(history.undo), old(history.redo), old(trail), old(View()))
      ensures plan.Deltas? ==> RefreshAsked(plan.deltas, Redo, alwaysJob, old(refreshRunning), old(refreshQueue))
    {
      hide InStep, Journalled, Leads, Good, WellFormed, KeepsForm, RefreshAsked, Views, ById, Overlay, Proper;
      if plan.Deltas? {
        ghost var before := View();
        PlanLeads(plan);
        var affected := ApplyVocabulary(plan.deltas, Redo, alwaysJob);
        LinkedOne(before, VocabularyChange(plan.deltas), View(), fold);
        Record([VocabularyChange(plan.deltas)], before);
      }
    }

    lemma PlanLeads(plan: Planned)
      requires InStep() && KeepsForm(ById(vocabulary), plan, fold) && plan.Deltas?
               && forall d | d in plan.deltas :: d.after.Some?
      ensures var after := View().(tree := Overlay(ById(vocabulary), plan.deltas, Redo));
              && Proper(plan.deltas) && Good(View(), fold) && Good(after, fold)
              && Leads(VocabularyChange(plan.deltas), View(), after, fold)
    {
      OneDeltaKeepsCarried(View(), plan.deltas, fold);
    }

    method RenameKeyword(id: KeywordId, newName: string) returns (plan: Planned)
      requires Valid()
      modifies this, history, catalogue
      ensures Valid() && plan == PlanRename(old(ById(vocabulary)), id, newName, fold)
      ensures VocabularyChanges.Renames(old(ById(vocabulary)), ById(vocabulary), id, newName, plan, fold)
      ensures View() == old(View()).(tree := ById(vocabulary))
      ensures OneStepMore(if plan.Deltas? then [VocabularyChange(plan.deltas)] else [],
                          old(history.undo), old(history.redo), old(trail), old(View()))
      ensures plan.Deltas? ==> RefreshAsked(plan.deltas, Redo, true, old(refreshRunning), old(refreshQueue))
    {
      hide InStep, Journalled, WellFormed, KeepsForm, ById, Overlay, Under, NameIsFree, Views,
        VocabularyChanges.Renames;
      VocabularyIsFormed();
      plan := PlanRename(ById(vocabulary), id, newName, fold);
      RenameKeeps(ById(vocabulary), id, newName, fold);
      VocabularyChanges.RenameDoes(ById(vocabulary), id, newName, fold);
      PerformPlan(plan, true);
    }

    method MoveKeyword(id: KeywordId, newParent: Option<KeywordId>) returns (plan: Planned)
      requires Valid()
      modifies this, history, catalogue
      ensures Valid() && plan == PlanMove(old(ById(vocabulary)), id, newParent, fold)
      ensures VocabularyChanges.Moves(old(ById(vocabulary)), ById(vocabulary), id, newParent, plan, fold)
      ensures View() == old(View()).(tree := ById(vocabulary))
      ensures OneStepMore(if plan.Deltas? then [VocabularyChange(plan.deltas)] else [],
                          old(history.undo), old(history.redo), old(trail), old(View()))
      ensures plan.Deltas? ==> RefreshAsked(plan.deltas, Redo, false, old(refreshRunning), old(refreshQueue))
    {
      hide InStep, Journalled, WellFormed, KeepsForm, ById, Overlay, Under, NameIsFree, Views,
        VocabularyChanges.Moves;
      VocabularyIsFormed();
      plan := PlanMove(ById(vocabulary), id, newParent, fold);
      MoveKeeps(ById(vocabulary), id, newParent, fold);
      VocabularyChanges.MoveDoes(ById(vocabulary), id, newParent, fold);
      PerformPlan(plan, false);
    }

    method SetKeywordProperties(id: KeywordId, synonyms: seq<string>, exported: bool) returns (plan: Planned)
      requires Valid()
      modifies this, history, catalogue
      ensures Valid() && plan == PlanProperties(old(ById(vocabulary)), id, synonyms, exported)
      ensures VocabularyChanges.Describes(old(ById(vocabulary)), ById(vocabulary), id, synonyms, exported, plan)
      ensures View() == old(View()).(tree := ById(vocabulary))
      ensures OneStepMore(if plan.Deltas? then [VocabularyChange(plan.deltas)] else [],
                          old(history.undo), old(history.redo), old(trail), old(View()))
      ensures plan.Deltas? ==> RefreshAsked(plan.deltas, Redo, false, old(refreshRunning), old(refreshQueue))
    {
      hide InStep, Journalled, WellFormed, KeepsForm, ById, Overlay, Under, NameIsFree, Views,
        VocabularyChanges.Describes;
      VocabularyIsFormed();
      plan := PlanProperties(ById(vocabulary), id, synonyms, exported);
      PropertiesKeep(ById(vocabulary), id, synonyms, exported, fold);
      VocabularyChanges.PropertiesDo(ById(vocabulary), id, synonyms, exported);
      PerformPlan(plan, false);
    }

    lemma VocabularyIsFormed()
      requires Valid()
      ensures WellFormed(ById(vocabulary), fold)
    {
    }

    /** Takes a branch off one photo. */
    method SweepPhoto(photo: PhotoId, branch: seq<KeywordId>, writes: bool) returns (result: EditResult)
      requires InStep() && photo in photos
      modifies `photos, `vocabulary, `refreshRunning, `refreshQueue, catalogue
      ensures InStep() && photos.Keys == old(photos).Keys && ById(vocabulary) == old(ById(vocabulary))
      ensures forall p | p in photos && p != photo :: photos[p] == old(photos)[p]
      ensures result.Failed? <==> !writes
      ensures result.Failed? ==> View() == old(View())
      ensures result.Failed? ==> Snapshots(photos) == old(Snapshots(photos))
      ensures result.Done? ==>
                && PhotoChanges.SweptOff(old(photos)[photo], photos[photo], branch)
                && Explains(result.change, old(View()), View(), fold)
                && RecordsPaths(result.change, old(Snapshots(photos)), Snapshots(photos))
    {
      hide InStep, Explains, RecordsPaths, Snapshots, Views, ById, Apply, Refusing, PhotoChanges.SweptOff, ChangeOf;
      SweepApplies(AsDesk(), photo, branch, fold);
      result := ApplyEdit(RemoveKeywords(photo, branch), writes);
    }

    /** Takes a branch off the photos of a sweep, one by one, taking all of it back when one cannot be written. */
    method SweepBranch(branch: seq<KeywordId>, sweep: set<PhotoId>, writes: nat -> bool)
      returns (swept: bool, changes: Entry)
      requires InStep() && sweep <= photos.Keys
      modifies `photos, `vocabulary, `collections, `series, `refreshRunning, `refreshQueue, catalogue
      ensures InStep()
      ensures !swept ==> View() == old(View()) && Snapshots(photos) == old(Snapshots(photos))
      ensures swept ==>
                && Linked(changes, old(View()), View(), fold)
                && PathsBack(Snapshots(photos), changes) == old(Snapshots(photos))
                && ById(vocabulary) == old(ById(vocabulary)) && SweptAll(old(photos), photos, sweep, branch)
    {
      hide *;
      StartsLinked();
      NothingSwept(photos, branch);
      ghost var before, was, paths := View(), photos, Snapshots(photos);
      NothingBack(paths);
      changes := [];
      var rest := sweep;
      assert sweep - rest == {};
      var n := 0;
      while rest != {}
        invariant rest <= sweep <= photos.Keys
        invariant InStep() && Linked(changes, before, View(), fold)
        invariant ById(vocabulary) == old(ById(vocabulary)) && SweptAll(was, photos, sweep - rest, branch)
        invariant PathsBack(Snapshots(photos), changes) == paths
        decreases rest
      {
        var photo :| photo in rest;
        ghost var mid, last, midPaths := View(), photos, Snapshots(photos);
        var result := SweepPhoto(photo, branch, writes(n));
        if result.Failed? {
          TakeBack(changes, before);
          return false, [];
        }
        LinkedMore(changes, before, mid, result.change, View(), fold);
        SweptMore(was, last, photos, sweep - rest, photo, branch);
        RecordedMore(changes, result.change, paths, midPaths, Snapshots(photos));
        changes := changes + if result.change.Some? then [result.change.value] else [];
        assert sweep - (rest - {photo}) == (sweep - rest) + {photo};
        rest := rest - {photo};
        n := n + 1;
      }
      assert sweep - rest == sweep;
      swept := true;
    }

    /** Takes out of the vocabulary a branch that no photo carries. */
    method DropBranch(ghost id: KeywordId, branch: seq<KeywordId>) returns (change: Change)
      requires InStep() && id in ById(vocabulary) && IsBranch(ById(vocabulary), id, branch)
               && NoneCarried(photos, branch)
      modifies `vocabulary, `refreshRunning, `refreshQueue, catalogue
      ensures InStep() && ById(vocabulary) == old(ById(vocabulary)) - set k | k in branch
      ensures Leads(change, old(View()), View(), fold)
    {
      var deltas := DeleteDeltas(ById(vocabulary), branch);
      DeletingABranchKeepsWellFormed(ById(vocabulary), id, branch, fold);
      DeleteDeltasRemove(ById(vocabulary), branch);
      DeletedLeads(View(), deltas, (set k | k in branch), fold);
      hide Good, WellFormed, Under, Carrying, BuildRows;
      var affected := ApplyVocabulary(deltas, Redo, false);
      change := VocabularyChange(deltas);
    }

    /** The keyword and everything under it, as the vocabulary is now. */
    method BranchOf(id: KeywordId) returns (branch: seq<KeywordId>)
      requires InStep()
      ensures IsBranch(ById(vocabulary), id, branch)
    {
      branch := DescendantsOf(vocabulary, id);
    }

    lemma StartsLinked()
      requires InStep()
      ensures Linked([], View(), View(), fold)
    {
    }

    /** The photos that carry any of these keywords, from the catalogue. */
    method PhotosWithKeywords(keywords: seq<KeywordId>) returns (carriers: set<PhotoId>)
      requires InStep()
      ensures carriers == (set c | c in Carrying(photos) && c.1 in keywords :: c.0) && carriers <= photos.Keys
    {
      carriers := set c | c in catalogue.photoKeyword && c.1 in keywords :: c.0;
    }

    /** Deletes a keyword and its branch: the photos lose it first, then the vocabulary, all or nothing. Past the
        threshold a background sweep does it instead. */
    method DeleteKeyword(id: KeywordId, writes: nat -> bool, writesVocabulary: bool) returns (outcome: DeleteOutcome)
      requires Valid()
      modifies this, history, catalogue
      ensures Valid()
      ensures outcome.DeleteRefused? <==> id !in old(ById(vocabulary))
      ensures !outcome.Deleted? ==>
                && View() == old(View()) && Snapshots(photos) == old(Snapshots(photos)) && trail == old(trail)
                && history.undo == old(history.undo) && history.redo == old(history.redo)
      ensures outcome.Deleted? ==>
                && IsBranch(old(ById(vocabulary)), id, outcome.branch)
                && ById(vocabulary) == old(ById(vocabulary)) - (set k | k in outcome.branch)
                && SweptAll(old(photos), photos, outcome.swept, outcome.branch) && NoneCarried(photos, outcome.branch)
                && |history.undo| > 0 && history.redo == [] && Extends(old(trail), |old(history.undo)|, old(View()))
    {
      hide InStep, Journalled, View, ById, IsBranch, SweptAll, NoneCarried, Linked, Leads, Carrying, Newest;
      if id !in ById(vocabulary) {
        return DeleteRefused;
      }
      var branch := BranchOf(id);
      var sweep := PhotosWithKeywords(branch);
      if |sweep| > BACKGROUND_THRESHOLD {
        return DeleteStarted;
      }
      ghost var before, was := View(), photos;
      var swept, changes := SweepBranch(branch, sweep, writes);
      if !swept {
        return DeleteFailed;
      }
      if !writesVocabulary {
        TakeBack(changes, before);
        return DeleteFailed;
      }
      NobodyCarries(was, photos, branch, sweep);
      ghost var mid := View();
      var change := DropBranch(id, branch);
      LinkedAppend(changes, before, mid, change, View(), fold);
      Record(changes + [change], before);
      outcome := Deleted(branch, sweep);
    }

    // -------------------------------------------------------------- what another application wrote

    /** The fields of a share, taken one by one. */
    method TakeFields(meta: Metadata, photo: PhotoId, takes: seq<AcceptedChanges.Take>)
      returns (taken: Metadata, changes: Entry)
      ensures taken == AcceptedChanges.TakenAll(meta, takes)
              && changes == AcceptedChanges.ChangesTaken(photo, meta, takes)
    {
      hide AcceptedChanges.TakenMeta, AcceptedChanges.TakenChange;
      taken, changes := meta, [];
      for n := 0 to |takes|
        invariant taken == AcceptedChanges.TakenAll(meta, takes[..n])
        invariant changes == AcceptedChanges.ChangesTaken(photo, meta, takes[..n])
      {
        assert takes[..n + 1][..n] == takes[..n];
        var change := AcceptedChanges.TakenChange(photo, taken, takes[n]);
        changes := changes + if change.Some? then [change.value] else [];
        taken := AcceptedChanges.TakenMeta(taken, takes[n]);
      }
      assert takes[..|takes|] == takes;
    }

    /** One photo's share of an accept, in one write. */
    method AcceptPhoto(share: AcceptedChanges.Share, gained: seq<KeywordId>, writes: bool) returns (made: Option<Entry>)
      requires InStep() && forall k | k in gained :: k in ById(vocabulary)
      modifies `photos, catalogue
      ensures InStep()
      ensures made.None? ==> photos == old(photos) && View() == old(View())
      ensures made.None? <==>
                share.photo !in old(photos)
                || (!writes && AcceptedChanges.AcceptedEntry(old(photos)[share.photo], share, gained, ById(vocabulary),
                                                             fold) != [])
      ensures made.Some? ==>
                && made.value == AcceptedChanges.AcceptedEntry(old(photos)[share.photo], share, gained,
                                                               ById(vocabulary), fold)
                && Linked(made.value, old(View()), View(), fold)
                && PathsBack(Snapshots(photos), made.value) == old(Snapshots(photos))
                && photos == if made.value == [] then old(photos)
                             else old(photos)[share.photo :=
                                 AcceptedChanges.AcceptedMeta(old(photos)[share.photo], share, gained,
                                                                                           ById(vocabulary), fold)]
    {
      if share.photo !in photos {
        return None;
      }
      var meta := photos[share.photo];
      ghost var before := View();
      CarriedIsKnown(before, share.photo);
      AcceptedChanges.ShareLinks(before, meta, share, gained, fold);
      AcceptedChanges.AcceptedPathsBack(photos, share, gained, ById(vocabulary), fold);
      NothingBack(Snapshots(photos));
      hide Good, Normal, Linked, ViewOf, PathsBack, Snapshots, AcceptedChanges.TakenAll, AcceptedChanges.ChangesTaken,
        AcceptedChanges.KeywordsAccepted;
      var taken, changes := TakeFields(meta, share.photo, share.takes);
      var keywords := AcceptedChanges.KeywordsAccepted(taken, ById(vocabulary), share.gone, gained, fold);
      changes := changes + if keywords == KeywordsOf(taken) then []
        else [KeywordsChange(share.photo, KeywordsOf(taken), keywords)];
      if changes == [] {
        NothingLinked(before, AcceptedChanges.With(before, share.photo, WithKeywords(taken, keywords)), fold);
      } else if !writes {
        return None;
      } else {
        PersistPhoto(share.photo, WithKeywords(taken, keywords));
      }
      made := Some(changes);
    }

    /** Makes the keywords the vocabulary lacks for the paths the files gained. */
    method MakeMissing(shares: seq<AcceptedChanges.Share>, supplies: seq<seq<KeywordId>>, writes: bool)
      returns (made: Option<Entry>, leaves: seq<Option<KeywordId>>)
      requires InStep() && AcceptedChanges.Supplied(AcceptedChanges.PathsOf(shares), supplies, vocabulary)
      modifies `vocabulary, `refreshRunning, `refreshQueue, catalogue
      ensures InStep()
      ensures made.None? ==> View() == old(View())
      ensures made.Some? ==> PathsBack(Snapshots(photos), made.value) == Snapshots(photos)
      ensures made.Some? ==>
                && Linked(made.value, old(View()), View(), fold) && Grown(old(ById(vocabulary)), ById(vocabulary))
                && |leaves| == |AcceptedChanges.PathsOf(shares)|
                && forall i | 0 <= i < |leaves| ::
                     AcceptedChanges.ReadsAs(vocabulary, AcceptedChanges.PathsOf(shares)[i], leaves[i], fold)
    {
      hide AcceptedChanges.Supplied, AcceptedChanges.PathsOf, AcceptedChanges.ReadsAs, Views, Carrying, BuildRows, Good,
        NormalView, Overlay, Proper, Agrees, Snapshots, PathsBack, WellFormed, Distinct, InStep, Leads, Linked, ById;
      NothingBack(Snapshots(photos));
      ListIsFormed();
      var working;
      working, leaves := AcceptedChanges.ResolveAll(vocabulary, AcceptedChanges.PathsOf(shares), supplies, fold);
      var created := working[|vocabulary|..];
      assert working == vocabulary + created;
      if created == [] {
        assert working == vocabulary;
        StartsLinked();
        made := Some([]);
      } else if !writes {
        made := None;
      } else {
        ghost var before := View();
        var deltas := AcceptedChanges.Making(created);
        MakingLeads(working, created, deltas);
        var affected := ApplyVocabulary(deltas, Redo, false);
        LinkedOne(before, VocabularyChange(deltas), View(), fold);
        ListIsFormed();
        forall i | 0 <= i < |leaves|
          ensures AcceptedChanges.ReadsAs(vocabulary, AcceptedChanges.PathsOf(shares)[i], leaves[i], fold)
        {
          SameReads(working, vocabulary, AcceptedChanges.PathsOf(shares)[i], leaves[i], fold);
        }
        made := Some([VocabularyChange(deltas)]);
        OthersLeavePaths(Snapshots(photos), made.value);
      }
    }

    lemma PhotosAreNormal()
      requires InStep()
      ensures AllNormal(photos)
    {
    }

    lemma ListIsFormed()
      requires InStep()
      ensures Distinct(vocabulary) && WellFormed(ById(vocabulary), fold)
    {
    }

    /** The keywords that were made, as a change of the vocabulary. */
    lemma MakingLeads(working: seq<KeywordEntry>, created: seq<KeywordEntry>, deltas: seq<KeywordDelta>)
      requires InStep() && working == vocabulary + created && deltas == AcceptedChanges.Making(created)
      requires Distinct(working) && WellFormed(ById(working), fold)
      ensures var after := View().(tree := Overlay(ById(vocabulary), deltas, Redo));
              && Proper(deltas) && after.tree == ById(working) && Grown(ById(vocabulary), after.tree)
              && Good(View(), fold) && Good(after, fold) && Leads(VocabularyChange(deltas), View(), after, fold)
    {
      hide Views, Carrying, BuildRows, NormalView, Overlay, Proper, Agrees, Leads;
      AcceptedChanges.MakingIsProper(vocabulary, created);
      AcceptedChanges.MakingMakes(vocabulary, created);
      OverlayUndone(ById(vocabulary), deltas);
      OneDeltaKeepsCarried(View(), deltas, fold);
      MadeKeysGrow(ById(vocabulary), deltas);
    }

    /** Accepts what other applications wrote, all or nothing: the keywords the vocabulary lacks, then every photo's
        share, then the answers, as one step; when anything cannot be written, everything as it was. */
    method AcceptExternal(shares: seq<AcceptedChanges.Share>, supplies: seq<seq<KeywordId>>, writes: nat -> bool,
                          writesVocabulary: bool, settles: bool)
      returns (accepted: bool, gained: seq<seq<KeywordId>>)
      requires Valid() && AcceptedChanges.Supplied(AcceptedChanges.PathsOf(shares), supplies, vocabulary)
      requires forall i, j | 0 <= i < j < |shares| :: shares[i].photo != shares[j].photo
      modifies this, history, catalogue
      ensures Valid()
      ensures !accepted ==>
                && View() == old(View()) && Snapshots(photos) == old(Snapshots(photos)) && trail == old(trail)
                && history.undo == old(history.undo) && history.redo == old(history.redo)
      ensures accepted ==>
                && Grown(old(ById(vocabulary)), ById(vocabulary))
                && AcceptedChanges.SharesTaken(old(photos), photos, shares, gained, ById(vocabulary), fold)
                && AcceptedShares.SharesDone(old(photos), photos, shares, gained, ById(vocabulary), fold)
                && (forall i | 0 <= i < |shares| ::
                      AcceptedChanges.Answers(shares[i], gained[i], ById(vocabulary), fold))
                && (|| (View() == old(View()) && history.undo == old(history.undo))
                    || (history.redo == [] && Extends(old(trail), |old(history.undo)|, old(View()))))
    {
      hide InStep, Journalled, View, ById, Linked, Newest, AcceptedChanges.SharesTaken, AcceptedShares.SharesDone,
        Normal, AcceptedChanges.Answers,
        AcceptedChanges.Supplied, AcceptedChanges.PathsOf, TrailAfter;
      ghost var before, was := View(), photos;
      PhotosAreNormal();
      var changes;
      accepted, changes, gained := TakeShares(shares, supplies, writes, writesVocabulary, settles);
      if accepted {
        AcceptedShares.SharesDo(was, photos, shares, gained, ById(vocabulary), fold);
        if changes == [] {
          NothingLinked(before, View(), fold);
        }
        Record(changes, before);
      }
    }

    /** The writes of an accept; the first that fails takes back the ones before it. */
    method TakeShares(shares: seq<AcceptedChanges.Share>, supplies: seq<seq<KeywordId>>, writes: nat -> bool,
                      writesVocabulary: bool, settles: bool)
      returns (accepted: bool, changes: Entry, gained: seq<seq<KeywordId>>)
      requires InStep() && AcceptedChanges.Supplied(AcceptedChanges.PathsOf(shares), supplies, vocabulary)
      requires forall i, j | 0 <= i < j < |shares| :: shares[i].photo != shares[j].photo
      modifies `photos, `vocabulary, `collections, `series, `refreshRunning, `refreshQueue, catalogue
      ensures InStep()
      ensures !accepted ==> View() == old(View()) && Snapshots(photos) == old(Snapshots(photos))
      ensures accepted ==>
                && Linked(changes, old(View()), View(), fold) && Grown(old(ById(vocabulary)), ById(vocabulary))
                && AcceptedChanges.SharesTaken(old(photos), photos, shares, gained, ById(vocabulary), fold)
                && forall i | 0 <= i < |shares| :: AcceptedChanges.Answers(shares[i], gained[i], ById(vocabulary), fold)
    {
      hide *;
      ghost var before, was, paths := View(), photos, Snapshots(photos);
      var made, leaves := MakeMissing(shares, supplies, writesVocabulary);
      if made.None? {
        return false, [], [];
      }
      ghost var list := vocabulary;
      changes, gained := made.value, [];
      NoSharesTaken(photos, ById(list), fold);
      assert shares[..0] == [];
      for n := 0 to |shares|
        invariant InStep() && Linked(changes, before, View(), fold) && vocabulary == list
        invariant PathsBack(Snapshots(photos), changes) == paths
        invariant AcceptedChanges.SharesTaken(was, photos, shares[..n], gained, ById(list), fold)
        invariant |gained| == n && forall i | 0 <= i < n ::
                    AcceptedChanges.Answers(shares[i], gained[i], ById(list), fold)
      {
        var from := |AcceptedChanges.PathsOf(shares[..n])|;
        AcceptedChanges.SharesAnswered(vocabulary, shares, leaves, n, fold);
        var more := AcceptedChanges.Somes(leaves[from..from + |shares[n].gained|]);
        AnsweredAreKnown(shares[n], more, ById(list), fold);
        ghost var mid, last := View(), photos;
        var share := AcceptPhoto(shares[n], more, writes(n));
        if share.None? {
          TakeBack(changes, before);
          return false, [], [];
        }
        LinkedJoin(changes, before, mid, share.value, View(), fold);
        PathsBackJoin(Snapshots(photos), changes, share.value);
        AcceptedChanges.ShareTook(last, photos, shares[n], more, ById(list), fold);
        AcceptedChanges.OneShareMore(was, last, photos, shares[..n], gained, shares[n], more, ById(list), fold);
        assert shares[..n + 1] == shares[..n] + [shares[n]];
        changes := changes + share.value;
        gained := gained + [more];
      }
      assert shares[..|shares|] == shares;
      if !settles {
        TakeBack(changes, before);
        return false, [], [];
      }
      accepted := true;
    }

    // -------------------------------------------------------------- the collections

    /** Makes a planned change of the collections as one action. */
    method PerformCollections(plan: CollectionEdits.CollectionPlan)
      requires Valid() && CollectionEdits.KeepsCollections(collections, plan, fold)
      modifies this, history, catalogue
      ensures Valid() && (CollectionEdits.Formed(old(collections), fold) ==> CollectionEdits.Formed(collections, fold))
      ensures collections == CollectionChanges.AfterPlan(old(collections), plan)
      ensures View() == old(View()).(collections := collections)
      ensures OneStepMore(if plan.Changing? then [CollectionsChange(plan.deltas)] else [],
                          old(history.undo), old(history.redo), old(trail), old(View()))
    {
      hide Good, CollectionEdits.SaysWhatWas, CollectionEdits.Formed;
      if plan.Changing? {
        ghost var before := View();
        CollectionsLead(before, plan.deltas, fold);
        WriteCollections(plan.deltas, Redo);
        LinkedOne(before, CollectionsChange(plan.deltas), View(), fold);
        Record([CollectionsChange(plan.deltas)], before);
      }
    }

    method CreateCollection(name: string, parent: Option<CollectionId>, id: CollectionId, members: seq<PhotoId>,
                            leq: (CollectionTree.Row, CollectionTree.Row) -> bool)
      returns (plan: CollectionEdits.CollectionPlan, rows: seq<CollectionTree.Row>)
      requires Valid() && CollectionTree.TotalOrder(leq)
      modifies this, history, catalogue
      ensures Valid() && (CollectionEdits.Formed(old(collections), fold) ==> CollectionEdits.Formed(collections, fold))
      ensures CollectionEdits.Listing(old(collections), rows)
      ensures plan == CollectionEdits.PlanCreateCollection(old(collections), rows, name, parent, id, members,
                                                           old(photos).Keys, fold)
      ensures CollectionChanges.CreatesCollection(old(collections), collections, rows, name, parent, id,
                                                  members, old(photos).Keys, plan, fold)
      ensures View() == old(View()).(collections := collections)
      ensures OneStepMore(if plan.Changing? then [CollectionsChange(plan.deltas)] else [],
                          old(history.undo), old(history.redo), old(trail), old(View()))
    {
      hide *;
      rows := CollectionEdits.ListCollections(collections, leq);
      plan := CollectionEdits.PlanCreateCollection(collections, rows, name, parent, id, members, photos.Keys, fold);
      CollectionEdits.CreatePlanKeeps(collections, rows, name, parent, id, members, photos.Keys, fold);
      CollectionChanges.CreatePlanDoes(collections, rows, name, parent, id, members, photos.Keys, fold);
      PerformCollections(plan);
    }

    method RenameCollection(id: CollectionId, newName: string, leq: (CollectionTree.Row, CollectionTree.Row) -> bool)
      returns (plan: CollectionEdits.CollectionPlan, rows: seq<CollectionTree.Row>)
      requires Valid() && CollectionTree.TotalOrder(leq)
      modifies this, history, catalogue
      ensures Valid() && (CollectionEdits.Formed(old(collections), fold) ==> CollectionEdits.Formed(collections, fold))
      ensures CollectionEdits.Listing(old(collections), rows)
      ensures plan == CollectionEdits.PlanRenameCollection(old(collections), rows, id, newName, fold)
      ensures CollectionChanges.RenamesCollection(old(collections), collections, rows, id, newName, plan, fold)
      ensures View() == old(View()).(collections := collections)
      ensures OneStepMore(if plan.Changing? then [CollectionsChange(plan.deltas)] else [],
                          old(history.undo), old(history.redo), old(trail), old(View()))
    {
      hide *;
      rows := CollectionEdits.ListCollections(collections, leq);
      plan := CollectionEdits.PlanRenameCollection(collections, rows, id, newName, fold);
      CollectionEdits.RenamePlanKeeps(collections, rows, id, newName, fold);
      CollectionChanges.RenamePlanDoes(collections, rows, id, newName, fold);
      PerformCollections(plan);
    }

    method MoveCollection(id: CollectionId, newParent: Option<CollectionId>,
                          leq: (CollectionTree.Row, CollectionTree.Row) -> bool)
      returns (plan: CollectionEdits.CollectionPlan, rows: seq<CollectionTree.Row>, branch: seq<CollectionId>)
      requires Valid() && CollectionTree.TotalOrder(leq)
      modifies this, history, catalogue
      ensures Valid() && (CollectionEdits.Formed(old(collections), fold) ==> CollectionEdits.Formed(collections, fold))
      ensures CollectionEdits.Listing(old(collections), rows)
      ensures CollectionBranch.BranchUnder(CollectionBranch.Among(rows), id, branch)
      ensures plan == CollectionEdits.PlanMoveCollection(old(collections), rows, branch, id, newParent, fold)
      ensures CollectionChanges.MovesCollection(old(collections), collections, rows, branch, id, newParent, plan,
                                                fold)
      ensures View() == old(View()).(collections := collections)
      ensures OneStepMore(if plan.Changing? then [CollectionsChange(plan.deltas)] else [],
                          old(history.undo), old(history.redo), old(trail), old(View()))
    {
      hide *;
      rows, branch := ListedBranch(id, leq);
      plan := CollectionEdits.PlanMoveCollection(collections, rows, branch, id, newParent, fold);
      CollectionEdits.MovePlanKeeps(collections, rows, branch, id, newParent, fold);
      CollectionChanges.MovePlanDoes(collections, rows, branch, id, newParent, fold);
      PerformCollections(plan);
    }

    method DeleteCollection(id: CollectionId, leq: (CollectionTree.Row, CollectionTree.Row) -> bool)
      returns (plan: CollectionEdits.CollectionPlan, rows: seq<CollectionTree.Row>, branch: seq<CollectionId>)
      requires Valid() && CollectionTree.TotalOrder(leq)
      modifies this, history, catalogue
      ensures Valid() && (CollectionEdits.Formed(old(collections), fold) ==> CollectionEdits.Formed(collections, fold))
      ensures CollectionEdits.Listing(old(collections), rows)
      ensures CollectionBranch.BranchUnder(CollectionBranch.Among(rows), id, branch)
      ensures plan == CollectionEdits.PlanDeleteCollection(old(collections), rows, branch, id)
      ensures CollectionChanges.DeletesCollection(old(collections), collections, rows, branch, id, plan)
      ensures View() == old(View()).(collections := collections)
      ensures OneStepMore(if plan.Changing? then [CollectionsChange(plan.deltas)] else [],
                          old(history.undo), old(history.redo), old(trail), old(View()))
    {
      hide InStep, Journalled, Views, ById, PutCollections, Newest, CollectionEdits.Formed,
        CollectionEdits.KeepsCollections, CollectionEdits.PlanDeleteCollection, CollectionEdits.Listing,
        CollectionBranch.BranchUnder;
      rows, branch := ListedBranch(id, leq);
      plan := CollectionEdits.PlanDeleteCollection(collections, rows, branch, id);
      CollectionEdits.DeletePlanKeeps(collections, rows, branch, id, fold);
      CollectionChanges.DeletePlanDoes(collections, rows, branch, id);
      PerformCollections(plan);
    }

    /** The listing, and the branch under a collection in it. */
    method ListedBranch(id: CollectionId, leq: (CollectionTree.Row, CollectionTree.Row) -> bool)
      returns (rows: seq<CollectionTree.Row>, branch: seq<CollectionId>)
      requires CollectionTree.TotalOrder(leq)
      ensures CollectionEdits.Listing(collections, rows)
      ensures CollectionBranch.BranchUnder(CollectionBranch.Among(rows), id, branch)
    {
      rows := CollectionEdits.ListCollections(collections, leq);
      branch := CollectionBranch.BranchOf(rows, id);
    }

    method AddToCollection(id: CollectionId, members: seq<PhotoId>) returns (plan: CollectionEdits.CollectionPlan)
      requires Valid()
      modifies this, history, catalogue
      ensures Valid() && (CollectionEdits.Formed(old(collections), fold) ==> CollectionEdits.Formed(collections, fold))
      ensures plan == CollectionEdits.PlanAddPhotos(old(collections), id, members, old(photos).Keys)
      ensures CollectionChanges.AddsToCollection(old(collections), collections, id, members, old(photos).Keys, plan)
      ensures View() == old(View()).(collections := collections)
      ensures OneStepMore(if plan.Changing? then [CollectionsChange(plan.deltas)] else [],
                          old(history.undo), old(history.redo), old(trail), old(View()))
    {
      plan := CollectionEdits.PlanAddPhotos(collections, id, members, photos.Keys);
      if plan.Changing? {
        CollectionEdits.MembersKeep(collections, id, plan.deltas[0].after.value.members, fold);
      }
      hide Good, WellFormed, CollectionEdits.KeepsCollections, CollectionEdits.PlanAddPhotos, InStep, Journalled;
      CollectionChanges.AddPlanDoes(collections, id, members, photos.Keys);
      PerformCollections(plan);
    }

    method RemoveFromCollection(id: CollectionId, members: seq<PhotoId>) returns (plan: CollectionEdits.CollectionPlan)
      requires Valid()
      modifies this, history, catalogue
      ensures Valid() && (CollectionEdits.Formed(old(collections), fold) ==> CollectionEdits.Formed(collections, fold))
      ensures plan == CollectionEdits.PlanTakeOutPhotos(old(collections), id, members)
      ensures CollectionChanges.TakesFromCollection(old(collections), collections, id, members, plan)
      ensures View() == old(View()).(collections := collections)
      ensures OneStepMore(if plan.Changing? then [CollectionsChange(plan.deltas)] else [],
                          old(history.undo), old(history.redo), old(trail), old(View()))
    {
      plan := CollectionEdits.PlanTakeOutPhotos(collections, id, members);
      if plan.Changing? {
        CollectionEdits.MembersKeep(collections, id, plan.deltas[0].after.value.members, fold);
      }
      hide Good, WellFormed, CollectionEdits.KeepsCollections, CollectionEdits.PlanTakeOutPhotos, InStep, Journalled;
      CollectionChanges.TakeOutPlanDoes(collections, id, members);
      PerformCollections(plan);
    }

    lemma PhotoIsKnown(photo: PhotoId)
      requires InStep() && photo in photos
      ensures Normal(photos[photo]) && forall k | k in photos[photo].keywordIds :: k in ById(vocabulary)
    {
      hide WellFormed, Normal, ById;
      CarriedIsKnown(View(), photo);
    }

    /** A refresh of one photo's path snapshots, from a background job: nothing that is compared changes, and the
        journal stands where it stood. A photo that has gone is not missed. */
    method HandleRefreshed(photo: PhotoId, paths: map<KeywordId, string>)
      requires Valid()
      modifies `photos, catalogue
      ensures Valid() && View() == old(View())
      ensures photos == if photo in old(photos)
                        then old(photos)[photo := old(photos)[photo].(keywordPaths :=
                               RefreshedPaths(old(photos)[photo].keywordIds, old(photos)[photo].keywordPaths, paths))]
                        else old(photos)
      ensures photo in photos ==> SnapshotsRefreshed(old(photos)[photo], photos[photo], paths)
    {
      hide SnapshotsRefreshed, RefreshedPaths, Good, Normal, ViewOf, Carrying, BuildRows, Distinct, ById;
      if photo !in photos {
        return;
      }
      var meta := photos[photo];
      var snapshots := FreshSnapshots(meta.keywordIds, meta.keywordPaths, paths);
      RefreshedAtPlaces(meta, paths);
      PhotoIsKnown(photo);
      SnapshotsAreNotCompared(meta, snapshots);
      PhotoPutBack(Views(photos), photo, ViewOf(meta));
      PersistPhoto(photo, meta.(keywordPaths := snapshots));
    }

    /** **Going back is exact over any run**: undoing as many actions as there are steps for gives the state before
        them, and the steps wait in their order to be redone. */
    method GoBack(steps: nat)
      requires Valid() && steps <= |history.undo|
      modifies this, history, catalogue
      ensures Valid() && trail == old(trail) && View() == old(trail)[|old(history.undo)| - steps]
      ensures history.undo == old(history.undo)[..|old(history.undo)| - steps]
      ensures history.redo == old(history.redo) + Backwards(old(history.undo)[|old(history.undo)| - steps..])
    {
      hide InStep, Linked, Views, ById;
      ghost var all := history.undo;
      for n := 0 to steps
        invariant Valid() && trail == old(trail) && View() == old(trail)[|all| - n]
        invariant history.undo == all[..|all| - n] && history.redo == old(history.redo) + Backwards(all[|all| - n..])
      {
        BackwardsMore(all, |all| - n - 1);
        var undone := UndoLast();
      }
    }

    /** **Going back and forth is the identity**: as many redos as undos give the state and the journal back. */
    method ThereAndBack(steps: nat)
      requires Valid() && steps <= |history.undo|
      modifies this, history, catalogue
      ensures Valid() && View() == old(View()) && trail == old(trail)
      ensures history.undo == old(history.undo) && history.redo == old(history.redo)
    {
      hide InStep, Linked, Views, ById;
      ghost var all := history.undo;
      GoBack(steps);
      for n := 0 to steps
        invariant Valid() && trail == old(trail)
        invariant history.undo == all[..|all| - steps + n]
        invariant history.redo == old(history.redo) + Backwards(all[|all| - steps + n..])
      {
        BackwardsMore(all, |all| - steps + n);
        var redone := RedoNext();
      }
      assert all[|all|..] == [] && all[..|all|] == all;
    }
  }

  /** Steps in the order they are undone. */
  ghost function Backwards(steps: seq<Entry>): seq<Entry> {
    seq(|steps|, i requires 0 <= i < |steps| => steps[|steps| - 1 - i])
  }

  lemma BackwardsMore(steps: seq<Entry>, n: nat)
    requires n < |steps|
    ensures Backwards(steps[n..]) == Backwards(steps[n + 1..]) + [steps[n]]
    ensures steps[..n + 1][..n] == steps[..n] && steps[..n] + [steps[n]] == steps[..n + 1]
  {
  }

  lemma NoEdits(desk: Desk, fold: string -> string)
    ensures ApplyAll(desk, [], fold) == desk
  {
  }

  lemma NothingBack(paths: map<PhotoId, seq<string>>)
    ensures PathsBack(paths, []) == paths
  {
  }

  lemma RecordedMore(entry: Entry, change: Option<Change>, was: map<PhotoId, seq<string>>,
                     mid: map<PhotoId, seq<string>>, after: map<PhotoId, seq<string>>)
    requires PathsBack(mid, entry) == was && RecordsPaths(change, mid, after)
    ensures PathsBack(after, entry + if change.Some? then [change.value] else []) == was
  {
    PathsBackMore(entry, change, was, mid, after);
  }

  lemma OneEditMore(desk: Desk, edits: seq<Edit>, n: nat, fold: string -> string)
    requires n < |edits|
    ensures ApplyAll(desk, edits[..n + 1], fold) == Apply(ApplyAll(desk, edits[..n], fold), edits[n], fold)
  {
    assert edits[..n + 1][..n] == edits[..n];
  }

  /** An edit failed on what the ones before it made. */
  ghost predicate FailedAfter(before: Desk, edits: seq<Edit>, edit: Edit, why: EditError, writes: bool,
                              fold: string -> string)
  {
    exists mid :: PhotoChanges.AllDone(before, mid, edits, fold)
                  && PhotoChanges.EditAnswered(mid, mid, edit, Some(why), writes, fold)
  }

  lemma EditCameOut(desk: Desk, mid: Desk, after: Desk, edits: seq<Edit>, n: nat, result: EditResult, writes: bool,
                    fold: string -> string)
    requires n < |edits| && PhotoChanges.AllDone(desk, mid, edits[..n], fold)
    requires PhotoChanges.EditAnswered(mid, after, edits[n], WhyFailed(result), writes, fold)
    ensures result.Failed? ==> FailedAfter(desk, edits[..n], edits[n], result.why, writes, fold)
    ensures result.Done? ==> PhotoChanges.AllDone(desk, after, edits[..n + 1], fold)
  {
    hide PhotoChanges.AllDone, PhotoChanges.EditDone, PhotoChanges.EditRefused;
    if result.Done? {
      PhotoChanges.OneDoneMore(desk, mid, after, edits[..n], edits[n], fold);
      assert edits[..n] + [edits[n]] == edits[..n + 1];
    }
  }

  /** A step on its way from the undo stack to the redo stack. */
  lemma UndoneStep(trail: seq<World>, undo: seq<Entry>, entry: Entry, redo: seq<Entry>, fold: string -> string)
    requires TrailOk(trail, undo + [entry], redo, fold) && NonEmptyEntries(undo + [entry]) && NonEmptyEntries(redo)
    ensures TrailOk(trail, undo, redo + [entry], fold) && NonEmptyEntries(undo) && NonEmptyEntries(redo + [entry])
    ensures |trail| == |undo| + |redo| + 2 && Linked(entry, trail[|undo|], trail[|undo| + 1], fold)
  {
    hide Linked;
    TrailMoves(trail, undo, entry, redo, fold);
    StepsMove(undo, entry, redo);
    assert StepOf(undo + [entry], redo, |undo|) == entry;
  }

  lemma StepsMove(undo: seq<Entry>, entry: Entry, redo: seq<Entry>)
    ensures NonEmptyEntries(undo + [entry]) && NonEmptyEntries(redo) <==>
              NonEmptyEntries(undo) && NonEmptyEntries(redo + [entry])
  {
    assert (undo + [entry])[|undo|] == entry && (redo + [entry])[|redo|] == entry;
    assert forall i | 0 <= i < |undo| :: (undo + [entry])[i] == undo[i];
    assert forall i | 0 <= i < |redo| :: (redo + [entry])[i] == redo[i];
  }

  /** A step on its way back. */
  lemma RedoneStep(trail: seq<World>, undo: seq<Entry>, entry: Entry, redo: seq<Entry>, fold: string -> string)
    requires TrailOk(trail, undo, redo + [entry], fold) && NonEmptyEntries(undo) && NonEmptyEntries(redo + [entry])
    ensures TrailOk(trail, undo + [entry], redo, fold) && NonEmptyEntries(undo + [entry]) && NonEmptyEntries(redo)
    ensures |trail| == |undo| + |redo| + 2 && Linked(entry, trail[|undo|], trail[|undo| + 1], fold)
  {
    TrailMoves(trail, undo, entry, redo, fold);
    StepsMove(undo, entry, redo);
    UndoneStep(trail, undo, entry, redo, fold);
  }

  /** The photos that carry a keyword whose path a change of the vocabulary may have changed. */
  function Carriers(photos: map<PhotoId, Metadata>, tree: Tree, deltas: seq<KeywordDelta>,
                    direction: Direction): set<PhotoId> {
    set p | p in photos && exists k :: k in photos[p].keywordIds && Rewritten(tree, deltas, direction, k)
  }

  lemma AffectedAreCarriers(photos: map<PhotoId, Metadata>, changed: seq<KeywordId>, tree: Tree,
                            deltas: seq<KeywordDelta>, direction: Direction)
    requires forall k :: k in changed <==> Rewritten(tree, deltas, direction, k)
    ensures (set c | c in Carrying(photos) && c.1 in changed :: c.0) == Carriers(photos, tree, deltas, direction)
  {
    hide Rewritten;
    forall p | p in Carriers(photos, tree, deltas, direction)
      ensures p in (set c | c in Carrying(photos) && c.1 in changed :: c.0)
    {
      var k :| k in photos[p].keywordIds && Rewritten(tree, deltas, direction, k);
      assert (p, k) in Carrying(photos);
    }
  }

  /** The change of an edit is about the photo edited. */
  lemma ChangeIsOfPhoto(meta: Metadata, edit: Edit, path: string)
    requires IsPhotoEdit(edit)
    ensures var change := ChangeOf(meta, edit, path); change.Some? ==> PhotoOf(change.value) == Some(edit.photo)
  {
  }

  lemma CarriedIsKnown(world: World, photo: PhotoId)
    requires NothingDangling(world) && photo in world.photos
    ensures forall k | k in world.photos[photo].keywordIds :: k in world.tree
  {
  }

  /** A photo whose change goes both ways takes the world both ways. */
  lemma EditExplains(world: World, photo: PhotoId, before: PhotoView, after: PhotoView, change: Option<Change>,
                     fold: string -> string)
    requires photo in world.photos && world.photos[photo] == before && Good(world, fold)
    requires Good(world.(photos := world.photos[photo := after]), fold)
    requires change.None? ==> before == after
    requires change.Some? ==> && PhotoOf(change.value) == Some(photo)
                              && ApplyToView(change.value, before, Redo) == after
                              && ApplyToView(change.value, after, Undo) == before
    ensures Explains(change, world, world.(photos := world.photos[photo := after]), fold)
  {
    hide Good, ApplyToView;
    PhotoPutBack(world.photos, photo, after);
  }

  lemma PhotoPutBack(photos: map<PhotoId, PhotoView>, photo: PhotoId, after: PhotoView)
    requires photo in photos
    ensures photos[photo := after][photo := photos[photo]] == photos && photos[photo := photos[photo]] == photos
  {
  }

  lemma SameReads(a: seq<KeywordEntry>, b: seq<KeywordEntry>, path: string, leaf: Option<KeywordId>,
                  fold: string -> string)
    requires ById(a) == ById(b) && AcceptedChanges.ReadsAs(a, path, leaf, fold)
    ensures AcceptedChanges.ReadsAs(b, path, leaf, fold)
  {
  }

  /** Taking a branch off a photo is never refused, and changes nothing else. */
  lemma SweepApplies(desk: Desk, photo: PhotoId, branch: seq<KeywordId>, fold: string -> string)
    requires photo in desk.photos
    ensures Refusing(desk, RemoveKeywords(photo, branch), fold).None?
    ensures var after := Apply(desk, RemoveKeywords(photo, branch), fold);
            && after.tree == desk.tree && after.photos.Keys == desk.photos.Keys
            && PhotoChanges.SweptOff(desk.photos[photo], after.photos[photo], branch)
            && forall p | p in desk.photos && p != photo :: after.photos[p] == desk.photos[p]
  {
    hide Edited, PhotoChanges.SweptOff;
    PhotoChanges.SweepTakesOff(desk.tree, desk.photos[photo], RemoveKeywords(photo, branch));
  }

  lemma CreatedIsThere(tree: Tree, name: string, parent: Option<KeywordId>, id: KeywordId, fold: string -> string)
    ensures var plan := PlanCreate(tree, name, parent, id, fold);
            plan.Deltas? ==> forall d | d in plan.deltas :: d.after.Some?
  {
  }

  /** Every keyword is still there, as it was. */
  predicate Grown(before: Tree, after: Tree) { forall k | k in before :: k in after && after[k] == before[k] }

  lemma MadeKeysGrow(tree: Tree, deltas: seq<KeywordDelta>)
    requires Proper(deltas) && Agrees(tree, deltas) && forall d | d in deltas :: d.before.None? && d.after.Some?
    ensures Grown(tree, Overlay(tree, deltas, Redo))
  {
    forall k | k in tree ensures k in Overlay(tree, deltas, Redo) && Overlay(tree, deltas, Redo)[k] == tree[k] {
      OverlayAt(tree, deltas, Redo, k);
      forall i | 0 <= i < |deltas| ensures deltas[i].id != k {
        assert deltas[i] in deltas;
      }
    }
  }

  lemma NothingLinked(before: World, after: World, fold: string -> string)
    requires Linked([], before, after, fold)
    ensures before == after
  {
  }

  /** One entry after another. */
  lemma {:induction false} LinkedJoin(first: Entry, before: World, mid: World, then_: Entry, after: World,
                                      fold: string -> string)
    requires Linked(first, before, mid, fold) && Linked(then_, mid, after, fold)
    ensures Linked(first + then_, before, after, fold)
    decreases |then_|
  {
    if then_ == [] {
      assert first + then_ == first;
    } else {
      var front, last := then_[..|then_| - 1], then_[|then_| - 1];
      LinkedJoin(first, before, mid, front, Worlds.After(front, mid), fold);
      LinkedAppend(first + front, before, Worlds.After(front, mid), last, after, fold);
      assert first + then_ == (first + front) + [last];
    }
  }

  lemma NoSharesTaken(photos: map<PhotoId, Metadata>, tree: Tree, fold: string -> string)
    ensures AcceptedChanges.SharesTaken(photos, photos, [], [], tree, fold)
  {
  }

  lemma AnsweredAreKnown(share: AcceptedChanges.Share, gained: seq<KeywordId>, tree: Tree, fold: string -> string)
    requires AcceptedChanges.Answers(share, gained, tree, fold)
    ensures forall k | k in gained :: k in tree
  {
  }

  /** What the deltas of a plan say leads to the collections after, and back. */
  lemma CollectionsLead(world: World, deltas: seq<CollectionDelta>, fold: string -> string)
    requires Good(world, fold) && CollectionEdits.SaysWhatWas(world.collections, deltas)
    ensures Leads(CollectionsChange(deltas), world,
                  world.(collections := PutCollections(world.collections, deltas, Redo)), fold)
  {
    CollectionEdits.CollectionsGoBack(world.collections, deltas);
  }

  /** Deltas that take no keyword out leave every carried keyword in the vocabulary. */
  lemma OneDeltaKeepsCarried(world: World, deltas: seq<KeywordDelta>, fold: string -> string)
    requires Good(world, fold) && Proper(deltas) && Agrees(world.tree, deltas)
    requires WellFormed(Overlay(world.tree, deltas, Redo), fold)
    requires Overlay(Overlay(world.tree, deltas, Redo), deltas, Undo) == world.tree
    requires forall d | d in deltas :: d.after.Some?
    ensures Good(world.(tree := Overlay(world.tree, deltas, Redo)), fold)
    ensures Leads(VocabularyChange(deltas), world, world.(tree := Overlay(world.tree, deltas, Redo)), fold)
  {
    hide WellFormed, NormalView;
    var after := Overlay(world.tree, deltas, Redo);
    forall p | p in world.photos
      ensures forall k | k in world.photos[p].keywordIds :: k in after
    {
      forall k | k in world.photos[p].keywordIds ensures k in after {
        OverlayAt(world.tree, deltas, Redo, k);
        if i :| 0 <= i < |deltas| && deltas[i].id == k {
          assert deltas[i] in deltas;
        }
      }
    }
  }

  /** At each place the path there is for the keyword there, or the snapshot that was there; and nothing else. */
  predicate SnapshotsRefreshed(before: Metadata, after: Metadata, paths: map<KeywordId, string>) {
    && after == before.(keywordPaths := after.keywordPaths) && |after.keywordPaths| == |before.keywordPaths|
    && forall i | 0 <= i < |before.keywordPaths| ::
         after.keywordPaths[i] == if i < |before.keywordIds| && before.keywordIds[i] in paths
                                  then paths[before.keywordIds[i]] else before.keywordPaths[i]
  }

  lemma RefreshedAtPlaces(meta: Metadata, paths: map<KeywordId, string>)
    ensures SnapshotsRefreshed(meta, meta.(keywordPaths := RefreshedPaths(meta.keywordIds, meta.keywordPaths, paths)),
                               paths)
  {
  }

  lemma SnapshotsAreNotCompared(meta: Metadata, snapshots: seq<string>)
    ensures ViewOf(meta.(keywordPaths := snapshots)) == ViewOf(meta)
    ensures Normal(meta) ==> Normal(meta.(keywordPaths := snapshots))
  {
  }

  /** The snapshots and the identifiers walked side by side. */
  method FreshSnapshots(ids: seq<KeywordId>, before: seq<string>, paths: map<KeywordId, string>)
    returns (snapshots: seq<string>)
    ensures snapshots == RefreshedPaths(ids, before, paths)
  {
    snapshots := before;
    for n := 0 to |before|
      invariant |snapshots| == |before|
      invariant forall i | 0 <= i < n :: snapshots[i] == RefreshedPaths(ids, before, paths)[i]
      invariant forall i | n <= i < |before| :: snapshots[i] == before[i]
    {
      if n < |ids| && ids[n] in paths {
        snapshots := snapshots[n := paths[ids[n]]];
      }
    }
  }

  /** The photos of a sweep have lost a branch and nothing else; the others are as they were. */
  ghost predicate SweptAll(before: map<PhotoId, Metadata>, after: map<PhotoId, Metadata>, sweep: set<PhotoId>,
                     branch: seq<KeywordId>) {
    && after.Keys == before.Keys
    && forall p | p in after ::
         if p in sweep then PhotoChanges.SweptOff(before[p], after[p], branch) else after[p] == before[p]
  }

  lemma NothingSwept(photos: map<PhotoId, Metadata>, branch: seq<KeywordId>)
    ensures SweptAll(photos, photos, {}, branch)
  {
  }

  lemma SweptMore(before: map<PhotoId, Metadata>, mid: map<PhotoId, Metadata>, after: map<PhotoId, Metadata>,
                  done: set<PhotoId>, photo: PhotoId, branch: seq<KeywordId>)
    requires SweptAll(before, mid, done, branch) && photo in mid && photo !in done && after.Keys == mid.Keys
    requires PhotoChanges.SweptOff(mid[photo], after[photo], branch)
    requires forall p | p in after && p != photo :: after[p] == mid[p]
    ensures SweptAll(before, after, done + {photo}, branch)
  {
    hide PhotoChanges.SweptOff;
  }

  /** After a sweep no photo carries any of the branch. */
  lemma NobodyCarries(before: map<PhotoId, Metadata>, after: map<PhotoId, Metadata>, branch: seq<KeywordId>,
                      sweep: set<PhotoId>)
    requires sweep == set c | c in Carrying(before) && c.1 in branch :: c.0
    requires SweptAll(before, after, sweep, branch)
    ensures NoneCarried(after, branch)
  {
    forall p | p in after
      ensures forall k | k in after[p].keywordIds :: k !in branch
    {
      if p in sweep {
        FilterHolds(before[p].keywordIds, Outside(branch));
      } else {
        forall k | k in after[p].keywordIds ensures k !in branch {
          assert (p, k) in Carrying(before);
        }
      }
    }
  }

  /** Taking keywords nobody carries out of the vocabulary leads to a good world, and back. */
  lemma DeletedLeads(world: World, deltas: seq<KeywordDelta>, gone: set<KeywordId>, fold: string -> string)
    requires Good(world, fold) && Proper(deltas) && WellFormed(world.tree - gone, fold)
    requires Overlay(world.tree, deltas, Redo) == world.tree - gone
             && Overlay(world.tree - gone, deltas, Undo) == world.tree
    requires forall p | p in world.photos :: forall k | k in world.photos[p].keywordIds :: k !in gone
    ensures Leads(VocabularyChange(deltas), world, world.(tree := world.tree - gone), fold)
  {
    hide WellFormed, NormalView;
  }

  /** An entry with one more change, if there is one. */
  lemma LinkedMore(entry: Entry, before: World, mid: World, change: Option<Change>, after: World,
                   fold: string -> string)
    requires Linked(entry, before, mid, fold) && Explains(change, mid, after, fold)
    ensures Linked(entry + if change.Some? then [change.value] else [], before, after, fold)
  {
    if change.Some? {
      LinkedAppend(entry, before, mid, change.value, after, fold);
    } else {
      assert entry + [] == entry;
    }
  }

  lemma LinkedOne(before: World, change: Change, after: World, fold: string -> string)
    requires Good(before, fold) && Leads(change, before, after, fold)
    ensures Linked([change], before, after, fold)
  {
    LinkedAppend([], before, before, change, after, fold);
    assert [] + [change] == [change];
  }

  lemma WellFormedNames(tree: Tree, fold: string -> string)
    requires WellFormed(tree, fold)
    ensures NoMissingParent(tree) && Acyclic(tree) && PlainNames(tree)
  {
  }

  /** What a change of the vocabulary takes out is carried by no photo. */
  lemma NothingTakenOutIsCarried(world: World, photos: map<PhotoId, Metadata>, deltas: seq<KeywordDelta>,
                                 direction: Direction)
    requires Proper(deltas) && NothingDangling(world) && world.photos == Views(photos)
    requires exists before :: world.tree == Overlay(before, deltas, direction)
    ensures Carrying(photos) == set c | c in Carrying(photos) && !TakenOut(deltas, direction, c.1) :: c
  {
    var before :| world.tree == Overlay(before, deltas, direction);
    forall c | c in Carrying(photos) ensures !TakenOut(deltas, direction, c.1) {
      OverlayAt(before, deltas, direction, c.1);
      assert c.0 in world.photos && c.1 in world.photos[c.0].keywordIds;
    }
  }

  /** A step of a photo to a good world leaves it a state that reads back, with keywords of the vocabulary. */
  lemma PhotoStep(world: World, change: Change, direction: Direction, fold: string -> string)
    requires PhotoOf(change).Some? && change.photo in world.photos && Good(Step(world, change, direction), fold)
    ensures var view := ApplyToView(change, world.photos[change.photo], direction);
            NormalView(view) && forall k | k in view.keywordIds :: k in world.tree
  {
    var after := Step(world, change, direction);
    assert after.photos[change.photo] == ApplyToView(change, world.photos[change.photo], direction);
  }
}
