// What one step of the journal does, in either direction, said of the state before and after: the thing the change
// names is as the change recorded it for that direction, and everything else is as it was.
module WorldChanges {
  import opened Wrappers
  import opened Text
  import opened Vocabulary
  import opened VocabularyEdits
  import opened KeywordIndex
  import opened PhotoMetadata
  import opened PlaceNames
  import opened Journal
  import opened Worlds
  import opened PhotoChanges

  /** The recorded state a direction leads to. */
  function Side<T>(direction: Direction, before: T, after: T): T {
    match direction
    case Undo => before
    case Redo => after
  }

  /** A photo before and after one change of it: that change's part is as recorded, the rest as it was. */
  ghost predicate PhotoTurned(before: PhotoView, after: PhotoView, change: Change, direction: Direction)
    requires PhotoOf(change).Some?
  {
    match change
    case RatingChange(_, was, became) => after == before.(rating := Side(direction, was, became))
    case FlagChange(_, was, became) => after == before.(flag := Side(direction, was, became))
    case LabelChange(_, was, became) => after == before.(colour := Side(direction, was, became))
    case KeywordsChange(_, was, became) => after == before.(keywordIds := Side(direction, was, became).ids)
    case MetadataChange(_, field, was, became, filled) =>
      var text := Side(direction, was, became);
      && GetView(after, field) == (if field.List? then Join(Names(text), '\n') else text)
      && (forall f: MetadataField :: f != field ==> GetView(after, f) == GetView(before, f))
      && after == before.(lines := after.lines, names := after.names, custom := after.custom,
                          placeFilled := if filled.None? then before.placeFilled
                                         else Side(direction, filled.value.0, filled.value.1))
    case PlaceChange(_, was, became) =>
      var state := Side(direction, was, became);
      && (forall f: LineField ::
            LineIn(after.lines, f) == if f.Place? then PlaceIn(state.texts, f.place) else LineIn(before.lines, f))
      && after == before.(lines := after.lines, placeFilled := state.filled)
  }

  function LineIn(lines: map<LineField, string>, line: LineField): Option<string> {
    if line in lines then Some(lines[line]) else None
  }

  function PlaceIn(texts: map<PlaceField, string>, place: PlaceField): Option<string> {
    if place in texts then Some(texts[place]) else None
  }

  /** Of the entries exactly the ones the deltas name are as recorded, or gone where none was. */
  ghost predicate EntriesTurned(before: Tree, after: Tree, deltas: seq<KeywordDelta>, direction: Direction) {
    && (forall i | 0 <= i < |deltas| ::
          var side := Side(direction, deltas[i].before, deltas[i].after);
          && (deltas[i].id in after <==> side.Some?)
          && (side.Some? ==> after[deltas[i].id] == side.value))
    && forall k | (forall i | 0 <= i < |deltas| :: deltas[i].id != k) && (k in before || k in after) ::
         k in before && k in after && after[k] == before[k]
  }

  ghost predicate CollectionsTurned(before: map<CollectionId, Collection>, after: map<CollectionId, Collection>,
                              deltas: seq<CollectionDelta>, direction: Direction)
  {
    && (forall i | 0 <= i < |deltas| ::
          var side := Side(direction, deltas[i].before, deltas[i].after);
          && (deltas[i].id in after <==> side.Some?)
          && (side.Some? ==> after[deltas[i].id] == side.value))
    && forall k | (forall i | 0 <= i < |deltas| :: deltas[i].id != k) && (k in before || k in after) ::
         k in before && k in after && after[k] == before[k]
  }

  ghost predicate SeriesTurned(before: map<SeriesId, Series>, after: map<SeriesId, Series>, id: SeriesId,
                         side: Option<Series>)
  {
    && (id in after <==> side.Some?) && (side.Some? ==> after[id] == side.value)
    && forall k | k != id && (k in before || k in after) :: k in before && k in after && after[k] == before[k]
  }

  /** The deltas name each thing once. */
  predicate NamesOnce(change: Change) {
    match change
    case VocabularyChange(deltas) => forall i, j | 0 <= i < j < |deltas| :: deltas[i].id != deltas[j].id
    case CollectionsChange(deltas) => forall i, j | 0 <= i < j < |deltas| :: deltas[i].id != deltas[j].id
    case _ => true
  }

  /** The world before and after one change. */
  ghost predicate Turned(before: World, after: World, change: Change, direction: Direction) {
    match change
    case VocabularyChange(deltas) =>
      after == before.(tree := after.tree) && EntriesTurned(before.tree, after.tree, deltas, direction)
    case CollectionsChange(deltas) =>
      && after == before.(collections := after.collections)
      && CollectionsTurned(before.collections, after.collections, deltas, direction)
    case SeriesChange(id, was, became) =>
      && after == before.(series := after.series)
      && SeriesTurned(before.series, after.series, id, Side(direction, was, became))
    case _ =>
      if change.photo in before.photos then
        && change.photo in after.photos
        && after == before.(photos := before.photos[change.photo := after.photos[change.photo]])
        && PhotoTurned(before.photos[change.photo], after.photos[change.photo], change, direction)
      else after == before
  }

  /** The path snapshots before and after one change: only a change of a photo's keywords puts other ones. */
  predicate PathsTurned(before: map<PhotoId, seq<string>>, after: map<PhotoId, seq<string>>, change: Change,
                        direction: Direction)
  {
    && after.Keys == before.Keys
    && forall p | p in after ::
         after[p] == if change.KeywordsChange? && change.photo == p
                     then Side(direction, change.keywordsBefore, change.keywordsAfter).paths else before[p]
  }

  lemma PathsTurn(paths: map<PhotoId, seq<string>>, change: Change, direction: Direction)
    ensures PathsTurned(paths, StepPaths(paths, change, direction), change, direction)
  {
  }

  lemma PhotoTurns(view: PhotoView, change: Change, direction: Direction)
    requires PhotoOf(change).Some?
    ensures PhotoTurned(view, ApplyToView(change, view, direction), change, direction)
  {
    if change.MetadataChange? {
      var text := Pick(direction, change.textBefore, change.textAfter);
      ReadsBack(view, change.field, text);
      RecordIsNoText(SetView(view, change.field, text), ApplyToView(change, view, direction).placeFilled);
      hide SetView, GetView, Names, Join;
      SetLeavesTheRest(view, change.field, text);
    }
  }

  lemma RecordIsNoText(view: PhotoView, filled: Option<PlaceFilled>)
    ensures forall f: MetadataField :: GetView(view.(placeFilled := filled), f) == GetView(view, f)
  {
  }

  lemma SetLeavesTheRest(view: PhotoView, field: MetadataField, text: string)
    ensures var after := SetView(view, field, text);
            after == view.(lines := after.lines, names := after.names, custom := after.custom)
  {
  }

  lemma EntriesTurn(tree: Tree, deltas: seq<KeywordDelta>, direction: Direction)
    requires NamesOnce(VocabularyChange(deltas))
    ensures EntriesTurned(tree, Overlay(tree, deltas, direction), deltas, direction)
  {
    forall k: KeywordId
      ensures forall i | 0 <= i < |deltas| && deltas[i].id == k ::
                var side := Side(direction, deltas[i].before, deltas[i].after);
                && (k in Overlay(tree, deltas, direction) <==> side.Some?)
                && (side.Some? ==> Overlay(tree, deltas, direction)[k] == side.value)
      ensures (forall i | 0 <= i < |deltas| :: deltas[i].id != k) ==>
                && (k in Overlay(tree, deltas, direction) <==> k in tree)
                && (k in tree ==> Overlay(tree, deltas, direction)[k] == tree[k])
    {
      OverlayTo(tree, deltas, direction, k);
    }
  }

  lemma {:induction false} OverlayTo(tree: Tree, deltas: seq<KeywordDelta>, direction: Direction, k: KeywordId)
    requires NamesOnce(VocabularyChange(deltas))
    ensures forall i | 0 <= i < |deltas| && deltas[i].id == k ::
              var side := Side(direction, deltas[i].before, deltas[i].after);
              && (k in Overlay(tree, deltas, direction) <==> side.Some?)
              && (side.Some? ==> Overlay(tree, deltas, direction)[k] == side.value)
    ensures (forall i | 0 <= i < |deltas| :: deltas[i].id != k) ==>
              && (k in Overlay(tree, deltas, direction) <==> k in tree)
              && (k in tree ==> Overlay(tree, deltas, direction)[k] == tree[k])
  {
    if deltas != [] {
      OverlayTo(tree, deltas[..|deltas| - 1], direction, k);
    }
  }

  lemma {:induction false} CollectionsTo(cs: map<CollectionId, Collection>, deltas: seq<CollectionDelta>,
                                         direction: Direction, k: CollectionId)
    requires NamesOnce(CollectionsChange(deltas))
    ensures forall i | 0 <= i < |deltas| && deltas[i].id == k ::
              var side := Side(direction, deltas[i].before, deltas[i].after);
              && (k in PutCollections(cs, deltas, direction) <==> side.Some?)
              && (side.Some? ==> PutCollections(cs, deltas, direction)[k] == side.value)
    ensures (forall i | 0 <= i < |deltas| :: deltas[i].id != k) ==>
              && (k in PutCollections(cs, deltas, direction) <==> k in cs)
              && (k in cs ==> PutCollections(cs, deltas, direction)[k] == cs[k])
  {
    if deltas != [] {
      CollectionsTo(cs, deltas[..|deltas| - 1], direction, k);
    }
  }

  lemma CollectionsTurn(cs: map<CollectionId, Collection>, deltas: seq<CollectionDelta>, direction: Direction)
    requires NamesOnce(CollectionsChange(deltas))
    ensures CollectionsTurned(cs, PutCollections(cs, deltas, direction), deltas, direction)
  {
    forall k: CollectionId
      ensures forall i | 0 <= i < |deltas| && deltas[i].id == k ::
                var side := Side(direction, deltas[i].before, deltas[i].after);
                && (k in PutCollections(cs, deltas, direction) <==> side.Some?)
                && (side.Some? ==> PutCollections(cs, deltas, direction)[k] == side.value)
      ensures (forall i | 0 <= i < |deltas| :: deltas[i].id != k) ==>
                && (k in PutCollections(cs, deltas, direction) <==> k in cs)
                && (k in cs ==> PutCollections(cs, deltas, direction)[k] == cs[k])
    {
      CollectionsTo(cs, deltas, direction, k);
    }
  }

  /** **A step puts back what it recorded, and nothing else**: in either direction, each thing the change names is as it
      was recorded for that direction. */
  lemma StepTurns(world: World, change: Change, direction: Direction)
    requires NamesOnce(change)
    ensures Turned(world, Step(world, change, direction), change, direction)
  {
    hide ApplyToView, Overlay, PutCollections, PhotoTurned, EntriesTurned, CollectionsTurned;
    match change
    case VocabularyChange(deltas) => EntriesTurn(world.tree, deltas, direction);
    case CollectionsChange(deltas) => CollectionsTurn(world.collections, deltas, direction);
    case SeriesChange(_, _, _) =>
    case _ =>
      if change.photo in world.photos {
        PhotoTurns(world.photos[change.photo], change, direction);
      }
  }
}
