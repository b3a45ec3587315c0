// What the journal travels over: the photos, the vocabulary, the collections and the series as they are compared, the
// two directions of a change on them, and what it means that an entry leads from one state to another and back.
module Worlds {
  import opened Wrappers
  import opened Vocabulary
  import opened VocabularyEdits
  import opened KeywordIndex
  import opened PhotoMetadata
  import opened PlaceNames
  import opened Journal

  datatype World = World(
    photos: map<PhotoId, PhotoView>, tree: Tree,
    collections: map<CollectionId, Collection>, series: map<SeriesId, Series>)

  // ---------------------------------------------------------------- a change, in either direction

  function Pick<T>(direction: Direction, before: T, after: T): T {
    if direction == Undo then before else after
  }

  /** Puts metadata in the state a change leads to. */
  function ApplyChange(change: Change, meta: Metadata, direction: Direction): Metadata {
    match change
    case RatingChange(_, before, after) => meta.(rating := Pick(direction, before, after))
    case FlagChange(_, before, after) => meta.(flag := Pick(direction, before, after))
    case LabelChange(_, before, after) => meta.(colour := Pick(direction, before, after))
    case KeywordsChange(_, before, after) =>
      var keywords := Pick(direction, before, after);
      meta.(keywordIds := keywords.ids, keywordPaths := keywords.paths)
    case MetadataChange(_, field, before, after, filled) =>
      var wrote := Set(meta, field, Pick(direction, before, after));
      if filled.Some? then wrote.(placeFilled := Pick(direction, filled.value.0, filled.value.1)) else wrote
    case PlaceChange(_, before, after) => PutPlaceState(meta, Pick(direction, before, after))
    case _ => meta
  }

  /** The same on what is compared. */
  function ApplyToView(change: Change, view: PhotoView, direction: Direction): PhotoView {
    match change
    case RatingChange(_, before, after) => view.(rating := Pick(direction, before, after))
    case FlagChange(_, before, after) => view.(flag := Pick(direction, before, after))
    case LabelChange(_, before, after) => view.(colour := Pick(direction, before, after))
    case KeywordsChange(_, before, after) => view.(keywordIds := Pick(direction, before, after).ids)
    case MetadataChange(_, field, before, after, filled) =>
      var wrote := SetView(view, field, Pick(direction, before, after));
      if filled.Some? then wrote.(placeFilled := Pick(direction, filled.value.0, filled.value.1)) else wrote
    case PlaceChange(_, before, after) =>
      var state := Pick(direction, before, after);
      view.(lines := PutTexts(view.lines, state.texts), placeFilled := state.filled)
    case _ => view
  }

  function PutCollections(collections: map<CollectionId, Collection>, deltas: seq<CollectionDelta>,
                          direction: Direction)
    : map<CollectionId, Collection>
  {
    if deltas == [] then collections
    else
      var last := deltas[|deltas| - 1];
      var rest := PutCollections(collections, deltas[..|deltas| - 1], direction);
      match Pick(direction, last.before, last.after)
      case Some(c) => rest[last.id := c]
      case None => rest - {last.id}
  }

  function PutSeries(series: map<SeriesId, Series>, id: SeriesId, state: Option<Series>): map<SeriesId, Series> {
    match state
    case Some(s) => series[id := s]
    case None => series - {id}
  }

  /** One change made to a world. */
  function Step(world: World, change: Change, direction: Direction): World {
    match change
    case VocabularyChange(deltas) => world.(tree := Overlay(world.tree, deltas, direction))
    case CollectionsChange(deltas) => world.(collections := PutCollections(world.collections, deltas, direction))
    case SeriesChange(id, before, after) => world.(series :=
        PutSeries(world.series, id, Pick(direction, before, after)))
    case _ =>
      if change.photo in world.photos
      then world.(photos := world.photos[change.photo := ApplyToView(change, world.photos[change.photo], direction)])
      else world
  }

  /** Every keyword a photo carries is in the vocabulary. */
  predicate NothingDangling(world: World) {
    forall p | p in world.photos :: forall k | k in world.photos[p].keywordIds :: k in world.tree
  }

  /** What every state between two changes is: a well-formed vocabulary, no dangling keyword, metadata that reads
      back. */
  predicate Good(world: World, fold: string -> string) {
    && WellFormed(world.tree, fold)
    && NothingDangling(world)
    && forall p | p in world.photos :: NormalView(world.photos[p])
  }

  /** A change leads from a world to a good one, and back. */
  predicate Leads(change: Change, before: World, after: World, fold: string -> string) {
    && Good(after, fold)
    && Step(before, change, Redo) == after
    && Step(after, change, Undo) == before
    && (PhotoOf(change).Some? ==> PhotoOf(change).value in before.photos)
    && (change.VocabularyChange? ==> Proper(change.keywords))
  }

  /** The world after the first changes of an entry. */
  function After(entry: Entry, before: World): World {
    if entry == [] then before else Step(After(entry[..|entry| - 1], before), entry[|entry| - 1], Redo)
  }

  /** An entry leads from a good world to another, each of its changes back as well as forth. */
  predicate Linked(entry: Entry, before: World, after: World, fold: string -> string)
    decreases |entry|
  {
    if entry == [] then before == after && Good(after, fold)
    else
      var mid := After(entry[..|entry| - 1], before);
      Linked(entry[..|entry| - 1], before, mid, fold) && Leads(entry[|entry| - 1], mid, after, fold)
  }

  lemma LinkedIsAfter(entry: Entry, before: World, after: World, fold: string -> string)
    requires Linked(entry, before, after, fold)
    ensures After(entry, before) == after && Good(after, fold)
  {
  }

  /** One more change at the end of an entry. */
  lemma LinkedAppend(entry: Entry, before: World, mid: World, change: Change, after: World, fold: string -> string)
    requires Linked(entry, before, mid, fold) && Leads(change, mid, after, fold)
    ensures Linked(entry + [change], before, after, fold)
  {
    LinkedIsAfter(entry, before, mid, fold);
    assert (entry + [change])[..|entry|] == entry;
  }

  lemma {:induction false} LinkedPrefix(entry: Entry, before: World, after: World, n: nat, fold: string -> string)
    requires Linked(entry, before, after, fold) && n <= |entry|
    ensures Linked(entry[..n], before, After(entry[..n], before), fold)
  {
    if n == |entry| {
      assert entry[..n] == entry;
      LinkedIsAfter(entry, before, after, fold);
    } else {
      var front := entry[..|entry| - 1];
      LinkedPrefix(front, before, After(front, before), n, fold);
      assert front[..n] == entry[..n];
    }
  }

  /** The change at `n` of a linked entry leads from the world before it to the one after. */
  lemma LinkedAt(entry: Entry, before: World, after: World, n: nat, fold: string -> string)
    requires Linked(entry, before, after, fold) && n < |entry|
    ensures Leads(entry[n], After(entry[..n], before), After(entry[..n + 1], before), fold)
    ensures Good(After(entry[..n], before), fold)
  {
    LinkedPrefix(entry, before, after, n + 1, fold);
    assert entry[..n + 1][..n] == entry[..n];
    LinkedIsAfter(entry[..n], before, After(entry[..n], before), fold);
  }

  lemma {:induction false} LinkedBefore(entry: Entry, before: World, after: World, fold: string -> string)
    requires Linked(entry, before, after, fold)
    ensures Good(before, fold)
  {
    if entry != [] {
      LinkedBefore(entry[..|entry| - 1], before, After(entry[..|entry| - 1], before), fold);
    }
  }

  // ---------------------------------------------------------------- undoing an entry

  /** The changes taken back, newest first. */
  function TakenBack(entry: Entry, after: World): World {
    if entry == [] then after
    else TakenBack(entry[..|entry| - 1], Step(after, entry[|entry| - 1], Undo))
  }

  /** **An entry goes back exactly**: its changes taken back in reverse give the world before it, whatever mixture of
      photos, vocabulary and collections it changed. */
  lemma {:induction false} EntryGoesBack(entry: Entry, before: World, after: World, fold: string -> string)
    requires Linked(entry, before, after, fold)
    ensures TakenBack(entry, after) == before
  {
    if entry != [] {
      var front := entry[..|entry| - 1];
      EntryGoesBack(front, before, After(front, before), fold);
    }
  }

  // ---------------------------------------------------------------- metadata and its view

  lemma PutTextsNormal(lines: map<LineField, string>, texts: map<PlaceField, string>)
    requires forall f | f in lines :: lines[f] != ""
    requires forall p | p in texts :: texts[p] != ""
    ensures forall f | f in PutTexts(lines, texts) :: PutTexts(lines, texts)[f] != ""
  {
  }

  /** The state a place change leads to is one a sidecar holds. */
  predicate ReadableChange(change: Change, direction: Direction) {
    change.PlaceChange? ==>
      var texts := Pick(direction, change.placeBefore, change.placeAfter).texts;
      forall p | p in texts :: texts[p] != ""
  }

  /** Applying a change to metadata is applying it to what is compared. */
  lemma ApplyIsApplyToView(change: Change, meta: Metadata, direction: Direction)
    requires Normal(meta) && ReadableChange(change, direction)
    ensures Normal(ApplyChange(change, meta, direction))
    ensures ViewOf(ApplyChange(change, meta, direction)) == ApplyToView(change, ViewOf(meta), direction)
  {
    match change
    case MetadataChange(_, field, before, after, _) => SetIsSetView(meta, field, Pick(direction, before, after));
    case PlaceChange(_, before, after) => PutTextsNormal(meta.lines, Pick(direction, before, after).texts);
    case _ =>
  }

  /** A change whose result reads back leads to a state a sidecar holds. */
  lemma NormalIsReadable(change: Change, view: PhotoView, direction: Direction)
    requires NormalView(ApplyToView(change, view, direction))
    ensures ReadableChange(change, direction)
  {
    if change.PlaceChange? {
      var texts := Pick(direction, change.placeBefore, change.placeAfter).texts;
      forall p | p in texts ensures texts[p] != "" {
        assert PutTexts(view.lines, texts)[Place(p)] == texts[p];
      }
    }
  }

  // ---------------------------------------------------------------- the path snapshots

  /** The path snapshots of the photos, which are not compared. */
  function Snapshots(photos: map<PhotoId, Metadata>): map<PhotoId, seq<string>> {
    map p | p in photos :: photos[p].keywordPaths
  }

  /** A change of a photo's keywords puts the snapshots recorded with them; no other change touches one. */
  function StepPaths(paths: map<PhotoId, seq<string>>, change: Change,
                     direction: Direction): map<PhotoId, seq<string>> {
    if change.KeywordsChange? && change.photo in paths
    then paths[change.photo := Pick(direction, change.keywordsBefore, change.keywordsAfter).paths]
    else paths
  }

  function PathsBack(paths: map<PhotoId, seq<string>>, entry: Entry): map<PhotoId, seq<string>> {
    if entry == [] then paths
    else PathsBack(StepPaths(paths, entry[|entry| - 1], Undo), entry[..|entry| - 1])
  }

  lemma SnapshotsPut(photos: map<PhotoId, Metadata>, change: Change, direction: Direction)
    requires PhotoOf(change).Some? && change.photo in photos
    ensures Snapshots(photos[change.photo := ApplyChange(change, photos[change.photo], direction)]) ==
            StepPaths(Snapshots(photos), change, direction)
  {
  }

  /** Changes after others are taken back before them. */
  lemma {:induction false} PathsBackJoin(paths: map<PhotoId, seq<string>>, first: Entry, rest: Entry)
    ensures PathsBack(paths, first + rest) == PathsBack(PathsBack(paths, rest), first)
    decreases |rest|
  {
    if rest == [] {
      assert first + rest == first;
    } else {
      var front := rest[..|rest| - 1];
      assert (first + rest)[..|first + rest| - 1] == first + front;
      PathsBackJoin(StepPaths(paths, rest[|rest| - 1], Undo), first, front);
    }
  }

  /** Changes that are not about keywords leave the snapshots. */
  lemma {:induction false} OthersLeavePaths(paths: map<PhotoId, seq<string>>, entry: Entry)
    requires forall i | 0 <= i < |entry| :: !entry[i].KeywordsChange?
    ensures PathsBack(paths, entry) == paths
  {
    if entry != [] {
      OthersLeavePaths(paths, entry[..|entry| - 1]);
    }
  }

  /** One more change that goes back to the snapshots before it. */
  lemma PathsBackMore(entry: Entry, change: Option<Change>, was: map<PhotoId, seq<string>>,
                      mid: map<PhotoId, seq<string>>, after: map<PhotoId, seq<string>>)
    requires PathsBack(mid, entry) == was
    requires mid == if change.Some? then StepPaths(after, change.value, Undo) else after
    ensures PathsBack(after, entry + if change.Some? then [change.value] else []) == was
  {
    if change.Some? {
      assert (entry + [change.value])[..|entry|] == entry;
    } else {
      assert entry + [] == entry;
    }
  }

  // ---------------------------------------------------------------- the trail of a journal

  /** The steps of a journal from the oldest: the ones that can be undone, then the ones that can be redone. */
  function StepOf(undo: seq<Entry>, redo: seq<Entry>, i: nat): Entry
    requires i < |undo| + |redo|
  {
    if i < |undo| then undo[i] else redo[|redo| - 1 - (i - |undo|)]
  }

  /** Every step of a journal leads between two neighbouring states of the trail. */
  predicate TrailOk(trail: seq<World>, undo: seq<Entry>, redo: seq<Entry>, fold: string -> string) {
    && |trail| == |undo| + |redo| + 1
    && forall i | 0 <= i < |undo| + |redo| :: Linked(StepOf(undo, redo, i), trail[i], trail[i + 1], fold)
  }

  /** Moving a step from one stack to the other leaves the trail as it is. */
  lemma TrailMoves(trail: seq<World>, undo: seq<Entry>, entry: Entry, redo: seq<Entry>, fold: string -> string)
    ensures TrailOk(trail, undo + [entry], redo, fold) <==> TrailOk(trail, undo, redo + [entry], fold)
  {
    hide Linked;
    forall i | 0 <= i < |undo| + 1 + |redo|
      ensures StepOf(undo + [entry], redo, i) == StepOf(undo, redo + [entry], i)
    {
    }
    assert forall i | 0 <= i < |undo| + 1 + |redo| ::
        StepOf(undo + [entry], redo, i) == StepOf(undo, redo + [entry], i);
  }

  /** The trail after a new step: what was undone is cut off, and the oldest state goes when there are too many. */
  function TrailAfter(trail: seq<World>, at: nat, world: World, limit: nat): seq<World>
    requires at < |trail|
  {
    var longer := trail[..at + 1] + [world];
    if at + 1 <= limit then longer else longer[at + 1 - limit..]
  }

  lemma TrailRecords(trail: seq<World>, undo: seq<Entry>, redo: seq<Entry>, entry: Entry, world: World, limit: nat,
                     fold: string -> string)
    requires TrailOk(trail, undo, redo, fold) && Linked(entry, trail[|undo|], world, fold)
    ensures TrailOk(TrailAfter(trail, |undo|, world, limit), Newest(undo + [entry], limit), [], fold)
  {
    hide Linked;
    var after, steps := TrailAfter(trail, |undo|, world, limit), Newest(undo + [entry], limit);
    var gone := |undo| + 1 - |steps|;
    forall i | 0 <= i < |steps| ensures Linked(StepOf(steps, [], i), after[i], after[i + 1], fold) {
      if i + gone < |undo| {
        assert Linked(StepOf(undo, redo, i + gone), trail[i + gone], trail[i + gone + 1], fold);
      }
    }
  }

  // ---------------------------------------------------------------- a photo that comes in

  /** A world with one more photo. */
  function Joined(world: World, photo: PhotoId, view: PhotoView): World {
    world.(photos := world.photos[photo := view])
  }

  predicate AllIn(ids: seq<KeywordId>, tree: Tree) { forall k | k in ids :: k in tree }

  lemma JoinedIsGood(world: World, photo: PhotoId, view: PhotoView, fold: string -> string)
    requires Good(world, fold) && NormalView(view) && photo !in world.photos
    ensures Good(Joined(world, photo, view), fold) <==> AllIn(view.keywordIds, world.tree)
    ensures NothingDangling(Joined(world, photo, view)) <==> AllIn(view.keywordIds, world.tree)
  {
    hide WellFormed, NormalView;
    assert Joined(world, photo, view).photos[photo] == view;
    forall p | p in world.photos ensures p != photo && Joined(world, photo, view).photos[p] == world.photos[p] {
    }
  }

  /** A change of what was there does the same beside a photo that was not. */
  lemma StepJoined(world: World, change: Change, direction: Direction, photo: PhotoId, view: PhotoView)
    requires photo !in world.photos && (PhotoOf(change).Some? ==> PhotoOf(change).value in world.photos)
    ensures Step(Joined(world, photo, view), change, direction) == Joined(Step(world, change, direction), photo, view)
    ensures Step(world, change, direction).photos.Keys == world.photos.Keys
  {
    hide ApplyToView, PutCollections, Overlay;
    if PhotoOf(change).Some? {
      var after := ApplyToView(change, world.photos[change.photo], direction);
      assert world.photos[photo := view][change.photo := after] == world.photos[change.photo := after][photo := view];
    }
  }

  /** The keywords are in the vocabulary before an entry and after each of its changes. */
  predicate KnownThroughout(entry: Entry, before: World, ids: seq<KeywordId>) {
    forall n | 0 <= n <= |entry| :: AllIn(ids, After(entry[..n], before).tree)
  }

  lemma KnownOneMore(entry: Entry, before: World, ids: seq<KeywordId>)
    ensures entry == [] ==> (KnownThroughout(entry, before, ids) <==> AllIn(ids, before.tree))
    ensures entry != [] ==>
              (KnownThroughout(entry, before, ids) <==>
               KnownThroughout(entry[..|entry| - 1], before, ids) && AllIn(ids, After(entry, before).tree))
  {
    hide After, AllIn;
    assert entry[..|entry|] == entry;
    if entry != [] {
      var front := entry[..|entry| - 1];
      assert forall n | 0 <= n < |entry| :: entry[..n] == front[..n];
    } else {
      AfterNothing(before);
    }
  }

  lemma AfterNothing(before: World)
    ensures After([], before) == before
  {
  }

  /** An entry leads beside a new photo where it led without it exactly when what the photo carries is there
      throughout. */
  lemma {:induction false} LinkedJoined(entry: Entry, before: World, after: World, photo: PhotoId, view: PhotoView,
                                        fold: string -> string)
    requires Linked(entry, before, after, fold) && photo !in before.photos && NormalView(view)
    ensures Linked(entry, Joined(before, photo, view), Joined(after, photo, view), fold) <==>
            KnownThroughout(entry, before, view.keywordIds)
    ensures After(entry, Joined(before, photo, view)) == Joined(After(entry, before), photo, view)
    ensures photo !in after.photos
  {
    hide Good, NormalView, Joined, KnownThroughout, AllIn, Step;
    KnownOneMore(entry, before, view.keywordIds);
    LinkedIsAfter(entry, before, after, fold);
    KeysStay(entry, before, after, fold);
    JoinedIsGood(after, photo, view, fold);
    if entry != [] {
      var front, last := entry[..|entry| - 1], entry[|entry| - 1];
      var mid := After(front, before);
      LinkedJoined(front, before, mid, photo, view, fold);
      StepJoined(mid, last, Redo, photo, view);
      StepJoined(after, last, Undo, photo, view);
      JoinedKeys(mid, photo, view);
    }
  }

  lemma JoinedKeys(world: World, photo: PhotoId, view: PhotoView)
    ensures Joined(world, photo, view).photos.Keys == world.photos.Keys + {photo}
  {
  }

  /** The keywords are in the vocabulary of every state the steps of a journal go through. */
  predicate KnownInTrail(trail: seq<World>, undo: seq<Entry>, redo: seq<Entry>, ids: seq<KeywordId>)
    requires |trail| == |undo| + |redo| + 1
  {
    forall i | 0 <= i < |undo| + |redo| :: KnownThroughout(StepOf(undo, redo, i), trail[i], ids)
  }

  function JoinedTrail(trail: seq<World>, photo: PhotoId, view: PhotoView): (joined: seq<World>)
    ensures |joined| == |trail| && forall i | 0 <= i < |trail| :: joined[i] == Joined(trail[i], photo, view)
  {
    seq(|trail|, i requires 0 <= i < |trail| => Joined(trail[i], photo, view))
  }

  /** **The steps of a journal lead between the states with a photo as they did without exactly when every keyword it
      carries is there throughout.** */
  lemma TrailJoined(trail: seq<World>, undo: seq<Entry>, redo: seq<Entry>, at: nat, photo: PhotoId, view: PhotoView,
                    fold: string -> string)
    requires TrailOk(trail, undo, redo, fold) && at < |trail| && photo !in trail[at].photos && NormalView(view)
    ensures TrailOk(JoinedTrail(trail, photo, view), undo, redo, fold) <==>
              KnownInTrail(trail, undo, redo, view.keywordIds)
  {
    hide Linked, NormalView, Joined, KnownThroughout;
    var joined := JoinedTrail(trail, photo, view);
    forall i | 0 <= i < |undo| + |redo|
      ensures Linked(StepOf(undo, redo, i), joined[i], joined[i + 1], fold) <==>
              KnownThroughout(StepOf(undo, redo, i), trail[i], view.keywordIds)
    {
      AbsentAlong(trail, undo, redo, at, i, photo, fold);
      LinkedJoined(StepOf(undo, redo, i), trail[i], trail[i + 1], photo, view, fold);
    }
    if TrailOk(joined, undo, redo, fold) {
      forall i | 0 <= i < |undo| + |redo| ensures KnownThroughout(StepOf(undo, redo, i), trail[i], view.keywordIds) {
        assert Linked(StepOf(undo, redo, i), joined[i], joined[i + 1], fold);
      }
    }
  }

  /** **An undo past what a new photo carries leaves it dangling**: taking an entry back beside the photo gives the
      state before it with the photo, which has a dangling keyword exactly when the photo carries one that was not
      there. */
  lemma {:induction false} UndoneBeside(entry: Entry, before: World, after: World, photo: PhotoId, view: PhotoView,
                                        fold: string -> string)
    requires Linked(entry, before, after, fold) && photo !in before.photos && NormalView(view)
    ensures TakenBack(entry, Joined(after, photo, view)) == Joined(before, photo, view)
    ensures NothingDangling(TakenBack(entry, Joined(after, photo, view))) <==> AllIn(view.keywordIds, before.tree)
  {
    hide Good, Joined, Step, NothingDangling;
    LinkedBefore(entry, before, after, fold);
    JoinedIsGood(before, photo, view, fold);
    if entry != [] {
      var front, last := entry[..|entry| - 1], entry[|entry| - 1];
      var mid := After(front, before);
      KeysStay(entry, before, after, fold);
      KeysStay(front, before, mid, fold);
      StepJoined(after, last, Undo, photo, view);
      UndoneBeside(front, before, mid, photo, view, fold);
    }
  }

  /** A photo absent from one state of a trail is absent from all. */
  lemma {:induction false} AbsentAlong(trail: seq<World>, undo: seq<Entry>, redo: seq<Entry>, at: nat, i: nat,
                                       photo: PhotoId, fold: string -> string)
    requires TrailOk(trail, undo, redo, fold) && at < |trail| && i < |trail| && photo !in trail[at].photos
    ensures photo !in trail[i].photos
    decreases if i < at then at - i else i - at
  {
    hide Linked;
    if i < at {
      AbsentAlong(trail, undo, redo, at, i + 1, photo, fold);
      KeysStay(StepOf(undo, redo, i), trail[i], trail[i + 1], fold);
    } else if i > at {
      AbsentAlong(trail, undo, redo, at, i - 1, photo, fold);
      KeysStay(StepOf(undo, redo, i - 1), trail[i - 1], trail[i], fold);
    }
  }

  lemma {:induction false} KeysStay(entry: Entry, before: World, after: World, fold: string -> string)
    requires Linked(entry, before, after, fold)
    ensures after.photos.Keys == before.photos.Keys
  {
    hide Good, ApplyToView;
    if entry != [] {
      KeysStay(entry[..|entry| - 1], before, After(entry[..|entry| - 1], before), fold);
    }
  }
}
