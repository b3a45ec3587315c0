// What the journal still undoes after a photo has left: the steps that stay lead between the states without the photo,
// when no step that went had changed anything else.
module Leaving {
  import opened Wrappers
  import opened Vocabulary
  import opened VocabularyEdits
  import opened KeywordIndex
  import opened PhotoMetadata
  import opened PlaceNames
  import opened Journal
  import opened Worlds

  // ---------------------------------------------------------------- a world without a photo

  function LessCollections(collections: map<CollectionId, Collection>, photo: PhotoId): map<CollectionId, Collection> {
    map id | id in collections :: ScrubCollection(Some(collections[id]), photo).value
  }

  function LessSeries(series: map<SeriesId, Series>, photo: PhotoId): map<SeriesId, Series> {
    map id | id in series :: ScrubSeries(Some(series[id]), photo).value
  }

  /** A world a photo has left: it is in no collection and in no series either. */
  function Without(world: World, photo: PhotoId): World {
    World(world.photos - {photo}, world.tree, LessCollections(world.collections, photo),
          LessSeries(world.series, photo))
  }

  /** It has every other photo, the vocabulary, and every collection and series with its other members. */
  lemma WithoutLosesThePhoto(world: World, photo: PhotoId)
    ensures var left := Without(world, photo);
            && (forall p :: p in left.photos <==> p in world.photos && p != photo)
            && (forall p | p in left.photos :: left.photos[p] == world.photos[p])
            && left.tree == world.tree
            && left.collections.Keys == world.collections.Keys && left.series.Keys == world.series.Keys
            && (forall c | c in left.collections ::
                  CollectionLoses(Some(world.collections[c]), Some(left.collections[c]), photo))
            && forall r | r in left.series :: SeriesLoses(Some(world.series[r]), Some(left.series[r]), photo)
  {
    hide CollectionLoses, SeriesLoses;
    forall c | c in world.collections
      ensures CollectionLoses(Some(world.collections[c]), Some(Without(world, photo).collections[c]), photo)
    {
      ScrubCollectionLoses(Some(world.collections[c]), photo);
    }
    forall r | r in world.series
      ensures SeriesLoses(Some(world.series[r]), Some(Without(world, photo).series[r]), photo)
    {
      ScrubSeriesLoses(Some(world.series[r]), photo);
    }
  }

  lemma GoodWithout(world: World, photo: PhotoId, fold: string -> string)
    requires Good(world, fold)
    ensures Good(Without(world, photo), fold)
  {
    hide WellFormed, NormalView, LessCollections, LessSeries;
  }

  // ---------------------------------------------------------------- a change without a photo

  lemma {:induction false} PutLessCollections(collections: map<CollectionId, Collection>, deltas: seq<CollectionDelta>,
                                              direction: Direction, photo: PhotoId)
    ensures LessCollections(PutCollections(collections, deltas, direction), photo) ==
            PutCollections(LessCollections(collections, photo), ScrubDeltas(deltas, photo), direction)
  {
    hide ScrubDeltas, LessCollections, ScrubCollection;
    if deltas != [] {
      var front, last := deltas[..|deltas| - 1], deltas[|deltas| - 1];
      PutLessCollections(collections, front, direction, photo);
      ScrubbedFront(deltas, photo);
      PutOneLess(PutCollections(collections, front, direction), last, direction, photo);
    }
  }

  lemma PutOneLess(collections: map<CollectionId, Collection>, delta: CollectionDelta, direction: Direction,
                   photo: PhotoId)
    ensures LessCollections(PutOne(collections, delta, direction), photo) ==
            PutOne(LessCollections(collections, photo), ScrubDelta(delta, photo), direction)
  {
    match Pick(direction, delta.before, delta.after)
    case Some(c) =>
      assert LessCollections(collections[delta.id := c], photo) ==
             LessCollections(collections, photo)[delta.id := ScrubCollection(Some(c), photo).value];
    case None => assert LessCollections(collections - {delta.id}, photo) ==
        LessCollections(collections, photo) - {delta.id};
  }

  function PutOne(collections: map<CollectionId, Collection>, delta: CollectionDelta, direction: Direction)
    : map<CollectionId, Collection>
  {
    match Pick(direction, delta.before, delta.after)
    case Some(c) => collections[delta.id := c]
    case None => collections - {delta.id}
  }

  lemma ScrubbedFront(deltas: seq<CollectionDelta>, photo: PhotoId)
    requires deltas != []
    ensures ScrubDeltas(deltas, photo)[..|deltas| - 1] == ScrubDeltas(deltas[..|deltas| - 1], photo)
  {
  }

  lemma PutLessSeries(series: map<SeriesId, Series>, id: SeriesId, state: Option<Series>, photo: PhotoId)
    ensures LessSeries(PutSeries(series, id, state), photo) ==
              PutSeries(LessSeries(series, photo), id, ScrubSeries(state, photo))
  {
    match state
    case Some(s) =>
      assert LessSeries(series[id := s], photo) == LessSeries(series, photo)[id := ScrubSeries(Some(s), photo).value];
    case None => assert LessSeries(series - {id}, photo) == LessSeries(series, photo) - {id};
  }

  /** A change of the photo leaves the world without it as it was; any other does there what it did, scrubbed. */
  lemma StepWithout(world: World, change: Change, direction: Direction, photo: PhotoId)
    ensures Without(Step(world, change, direction), photo) ==
            if PhotoOf(change) == Some(photo) then Without(world, photo)
            else Step(Without(world, photo), Scrub(change, photo), direction)
  {
    hide PutCollections, LessCollections, LessSeries, ScrubDeltas, PutSeries;
    match change
    case VocabularyChange(_) => hide Overlay, LessCollections, LessSeries;
    case CollectionsChange(deltas) =>
      PutLessCollections(world.collections, deltas, direction, photo);
    case SeriesChange(id, before, after) =>
      PutLessSeries(world.series, id, Pick(direction, before, after), photo);
    case _ =>
      PhotoStepWithout(world, change, direction, photo);
  }

  lemma PhotoStepWithout(world: World, change: Change, direction: Direction, photo: PhotoId)
    requires PhotoOf(change).Some?
    ensures Without(Step(world, change, direction), photo) ==
            if PhotoOf(change) == Some(photo) then Without(world, photo)
              else Step(Without(world, photo), change, direction)
    ensures Scrub(change, photo) == change
  {
    hide ApplyToView, LessCollections, LessSeries;
    if change.photo in world.photos {
      var view := ApplyToView(change, world.photos[change.photo], direction);
      assert change.photo == photo ==> world.photos[change.photo := view] - {photo} == world.photos - {photo};
      assert change.photo != photo ==>
               world.photos[change.photo := view] - {photo} == (world.photos - {photo})[change.photo := view];
    }
  }

  lemma LeadsWithout(change: Change, before: World, after: World, photo: PhotoId, fold: string -> string)
    requires Leads(change, before, after, fold) && PhotoOf(change) != Some(photo)
    ensures Leads(Scrub(change, photo), Without(before, photo), Without(after, photo), fold)
  {
    hide Good, Step, ScrubDeltas, LessCollections, LessSeries;
    GoodWithout(after, photo, fold);
    StepWithout(before, change, Redo, photo);
    StepWithout(after, change, Undo, photo);
  }

  // ---------------------------------------------------------------- an entry without a photo

  lemma ScrubMore(entry: Entry, change: Change, photo: PhotoId)
    ensures ScrubAll(entry + [change], photo) == ScrubAll(entry, photo) + [Scrub(change, photo)]
  {
    assert (entry + [change])[..|entry|] == entry;
  }

  /** **An entry leads without a photo where it led with it**, without that photo's changes and scrubbed of it. */
  lemma {:induction false} LinkedWithout(entry: Entry, before: World, after: World, photo: PhotoId,
                                         fold: string -> string)
    requires Linked(entry, before, after, fold)
    ensures Linked(ScrubAll(NotAbout(entry, photo), photo), Without(before, photo), Without(after, photo), fold)
  {
    if entry == [] {
      GoodWithout(after, photo, fold);
    } else {
      var front, last := entry[..|entry| - 1], entry[|entry| - 1];
      var mid, kept := After(front, before), NotAbout(entry[..|entry| - 1], photo);
      LinkedWithout(front, before, mid, photo, fold);
      hide Linked, Leads, Without, Scrub;
      if PhotoOf(last) == Some(photo) {
        StepWithout(mid, last, Redo, photo);
        assert Leads(last, mid, after, fold) by {
          LastLeads(entry, before, after, fold);
        }
        LeadsIsStep(last, mid, after, fold);
        assert NotAbout(entry, photo) == kept + [] == kept;
      } else {
        LastLeads(entry, before, after, fold);
        LeadsWithout(last, mid, after, photo, fold);
        assert NotAbout(entry, photo) == kept + [last];
        ScrubMore(kept, last, photo);
        LinkedAppend(ScrubAll(kept, photo), Without(before, photo), Without(mid, photo), Scrub(last, photo),
                     Without(after, photo), fold);
      }
    }
  }

  lemma LastLeads(entry: Entry, before: World, after: World, fold: string -> string)
    requires Linked(entry, before, after, fold) && entry != []
    ensures Leads(entry[|entry| - 1], After(entry[..|entry| - 1], before), after, fold)
  {
  }

  lemma LeadsIsStep(change: Change, before: World, after: World, fold: string -> string)
    requires Leads(change, before, after, fold)
    ensures Step(before, change, Redo) == after
  {
  }

  /** What is left of an entry is it without the photo's changes, scrubbed. */
  lemma LeftIsScrubbed(entry: Entry, photo: PhotoId)
    requires ForgetIn(entry, photo).Some?
    ensures ForgetIn(entry, photo) == Some(ScrubAll(NotAbout(entry, photo), photo))
  {
    if !HasStateChange(entry) {
      forall i | 0 <= i < |entry| ensures Scrub(entry[i], photo) == entry[i] {
        assert PhotoOf(entry[i]).Some?;
      }
      assert ScrubAll(entry, photo) == entry;
    }
  }

  /** An entry about the photo alone changed nothing of the others. */
  lemma {:induction false} AboutItAlone(entry: Entry, before: World, after: World, photo: PhotoId,
                                        fold: string -> string)
    requires Linked(entry, before, after, fold) && forall i | 0 <= i < |entry| :: PhotoOf(entry[i]) == Some(photo)
    ensures Without(after, photo) == Without(before, photo)
  {
    hide Without, Step, Good;
    if entry != [] {
      var front, last := entry[..|entry| - 1], entry[|entry| - 1];
      var mid := After(front, before);
      AboutItAlone(front, before, mid, photo, fold);
      StepWithout(mid, last, Redo, photo);
    }
  }

  // ---------------------------------------------------------------- the trail without a photo

  /** A step that goes changed nothing but the photo. */
  predicate GoesAlone(step: Entry, before: World, after: World, photo: PhotoId) {
    ForgetIn(step, photo).None? ==> Without(after, photo) == Without(before, photo)
  }

  /** The steps that can be undone. */
  lemma {:induction false} PastWithout(trail: seq<World>, undo: seq<Entry>, photo: PhotoId, fold: string -> string)
    returns (kept: seq<World>)
    requires TrailOk(trail, undo, [], fold)
    requires forall i | 0 <= i < |undo| :: GoesAlone(undo[i], trail[i], trail[i + 1], photo)
    ensures TrailOk(kept, ForgetStack(undo, photo), [], fold)
    ensures kept[|ForgetStack(undo, photo)|] == Without(trail[|undo|], photo)
  {
    hide Linked, Without, ForgetIn;
    if undo == [] {
      kept := [Without(trail[0], photo)];
    } else {
      var n := |undo| - 1;
      FrontOk(trail, undo, fold);
      kept := PastWithout(trail[..n + 1], undo[..n], photo, fold);
      assert Linked(StepOf(undo, [], n), trail[n], trail[n + 1], fold)
        && GoesAlone(undo[n], trail[n], trail[n + 1], photo);
      var left := ForgetIn(undo[n], photo);
      if left.Some? {
        LeftIsScrubbed(undo[n], photo);
        LinkedWithout(undo[n], trail[n], trail[n + 1], photo, fold);
        OneStepMoreOk(kept, ForgetStack(undo[..n], photo), left.value, Without(trail[n + 1], photo), fold);
        kept := kept + [Without(trail[n + 1], photo)];
      } else {
        assert ForgetStack(undo[..n], photo) + [] == ForgetStack(undo[..n], photo);
      }
    }
  }

  lemma FrontOk(trail: seq<World>, undo: seq<Entry>, fold: string -> string)
    requires TrailOk(trail, undo, [], fold) && undo != []
    ensures TrailOk(trail[..|undo|], undo[..|undo| - 1], [], fold)
  {
    hide Linked;
    var n := |undo| - 1;
    forall i | 0 <= i < n ensures Linked(StepOf(undo[..n], [], i), trail[..n + 1][i], trail[..n + 1][i + 1], fold) {
      assert Linked(StepOf(undo, [], i), trail[i], trail[i + 1], fold);
    }
  }

  lemma OneStepMoreOk(trail: seq<World>, undo: seq<Entry>, step: Entry, after: World, fold: string -> string)
    requires TrailOk(trail, undo, [], fold) && Linked(step, trail[|undo|], after, fold)
    ensures TrailOk(trail + [after], undo + [step], [], fold)
  {
    hide Linked;
    forall i | 0 <= i < |undo| + 1
      ensures Linked(StepOf(undo + [step], [], i), (trail + [after])[i], (trail + [after])[i + 1], fold)
    {
      if i < |undo| {
        assert Linked(StepOf(undo, [], i), trail[i], trail[i + 1], fold);
      }
    }
  }

  /** The steps that can be redone. */
  lemma {:induction false} FutureWithout(trail: seq<World>, redo: seq<Entry>, photo: PhotoId, fold: string -> string)
    returns (kept: seq<World>)
    requires TrailOk(trail, [], redo, fold)
    requires forall i | 0 <= i < |redo| :: GoesAlone(StepOf([], redo, i), trail[i], trail[i + 1], photo)
    ensures TrailOk(kept, [], ForgetStack(redo, photo), fold)
    ensures kept[0] == Without(trail[0], photo)
    decreases |redo|
  {
    hide Linked, Without, ForgetIn;
    if redo == [] {
      kept := [Without(trail[0], photo)];
    } else {
      var front, last := redo[..|redo| - 1], redo[|redo| - 1];
      assert Linked(StepOf([], redo, 0), trail[0], trail[1], fold)
        && GoesAlone(StepOf([], redo, 0), trail[0], trail[1], photo);
      RestOk(trail, redo, fold);
      forall i | 0 <= i < |front| ensures GoesAlone(StepOf([], front, i), trail[1..][i], trail[1..][i + 1], photo) {
        assert GoesAlone(StepOf([], redo, i + 1), trail[i + 1], trail[i + 2], photo);
      }
      kept := FutureWithout(trail[1..], front, photo, fold);
      var left := ForgetIn(last, photo);
      if left.Some? {
        LeftIsScrubbed(last, photo);
        LinkedWithout(last, trail[0], trail[1], photo, fold);
        OneStepBeforeOk(Without(trail[0], photo), left.value, kept, ForgetStack(front, photo), fold);
        kept := [Without(trail[0], photo)] + kept;
      } else {
        assert ForgetStack(front, photo) + [] == ForgetStack(front, photo);
      }
    }
  }

  lemma RestOk(trail: seq<World>, redo: seq<Entry>, fold: string -> string)
    requires TrailOk(trail, [], redo, fold) && redo != []
    ensures TrailOk(trail[1..], [], redo[..|redo| - 1], fold)
  {
    hide Linked;
    var front := redo[..|redo| - 1];
    forall i | 0 <= i < |front| ensures Linked(StepOf([], front, i), trail[1..][i], trail[1..][i + 1], fold) {
      assert Linked(StepOf([], redo, i + 1), trail[i + 1], trail[i + 2], fold);
    }
  }

  lemma OneStepBeforeOk(before: World, step: Entry, trail: seq<World>, redo: seq<Entry>, fold: string -> string)
    requires TrailOk(trail, [], redo, fold) && Linked(step, before, trail[0], fold)
    ensures TrailOk([before] + trail, [], redo + [step], fold)
  {
    hide Linked;
    forall i | 0 <= i < |redo| + 1
      ensures Linked(StepOf([], redo + [step], i), ([before] + trail)[i], ([before] + trail)[i + 1], fold)
    {
      if i > 0 {
        assert Linked(StepOf([], redo, i - 1), trail[i - 1], trail[i], fold);
      }
    }
  }

  /** **The journal still undoes and redoes what it did, without the photo**: when every step that goes changed
      nothing but the photo, the steps that stay lead between the states without it, and the journal stands at the
      present one. */
  lemma TrailForgets(trail: seq<World>, undo: seq<Entry>, redo: seq<Entry>, photo: PhotoId, fold: string -> string)
    returns (kept: seq<World>)
    requires TrailOk(trail, undo, redo, fold)
    requires forall i | 0 <= i < |undo| + |redo| :: GoesAlone(StepOf(undo, redo, i), trail[i], trail[i + 1], photo)
    ensures TrailOk(kept, ForgetStack(undo, photo), ForgetStack(redo, photo), fold)
    ensures kept[|ForgetStack(undo, photo)|] == Without(trail[|undo|], photo)
  {
    hide Linked, Without, ForgetIn, ForgetStack, GoesAlone;
    var at := |undo|;
    Halves(trail, undo, redo, fold);
    forall i | 0 <= i < at ensures GoesAlone(undo[i], trail[..at + 1][i], trail[..at + 1][i + 1], photo) {
      assert GoesAlone(StepOf(undo, redo, i), trail[i], trail[i + 1], photo);
    }
    forall i | 0 <= i < |redo| ensures GoesAlone(StepOf([], redo, i), trail[at..][i], trail[at..][i + 1], photo) {
      assert GoesAlone(StepOf(undo, redo, at + i), trail[at + i], trail[at + i + 1], photo);
    }
    var past := PastWithout(trail[..at + 1], undo, photo, fold);
    var future := FutureWithout(trail[at..], redo, photo, fold);
    kept := past + future[1..];
    Together(past, ForgetStack(undo, photo), future, ForgetStack(redo, photo), fold);
  }

  lemma Halves(trail: seq<World>, undo: seq<Entry>, redo: seq<Entry>, fold: string -> string)
    requires TrailOk(trail, undo, redo, fold)
    ensures TrailOk(trail[..|undo| + 1], undo, [], fold) && TrailOk(trail[|undo|..], [], redo, fold)
  {
    hide Linked;
    var past, future := trail[..|undo| + 1], trail[|undo|..];
    forall i | 0 <= i < |undo| ensures Linked(StepOf(undo, [], i), past[i], past[i + 1], fold) {
      assert Linked(StepOf(undo, redo, i), trail[i], trail[i + 1], fold);
    }
    forall i | 0 <= i < |redo| ensures Linked(StepOf([], redo, i), future[i], future[i + 1], fold) {
      assert Linked(StepOf(undo, redo, |undo| + i), trail[|undo| + i], trail[|undo| + i + 1], fold);
    }
  }

  lemma Together(past: seq<World>, undo: seq<Entry>, future: seq<World>, redo: seq<Entry>, fold: string -> string)
    requires TrailOk(past, undo, [], fold) && TrailOk(future, [], redo, fold) && past[|undo|] == future[0]
    ensures TrailOk(past + future[1..], undo, redo, fold)
  {
    hide Linked;
    var trail := past + future[1..];
    forall i | 0 <= i < |undo| + |redo| ensures Linked(StepOf(undo, redo, i), trail[i], trail[i + 1], fold) {
      if i < |undo| {
        assert Linked(StepOf(undo, [], i), past[i], past[i + 1], fold);
      } else {
        assert Linked(StepOf([], redo, i - |undo|), future[i - |undo|], future[i - |undo| + 1], fold);
      }
    }
  }

  // ---------------------------------------------------------------- a step that goes takes a part of another's with it

  const PLAIN := PhotoView(None, None, None, [], map[], map[], map[], None)

  function Rated(rating: Option<nat>): PhotoView { PLAIN.(rating := rating) }

  function Two(left: Option<nat>, stays: Option<nat>): World {
    World(map[1 := Rated(left), 2 := Rated(stays)], map[], map[], map[])
  }

  const OWN: Entry := [RatingChange(2, None, Some(1))]
  const SHARED: Entry := [RatingChange(1, None, Some(5)), RatingChange(2, Some(1), Some(3))]

  lemma TwoIsGood(left: Option<nat>, stays: Option<nat>, photo: PhotoId, fold: string -> string)
    ensures Good(Two(left, stays), fold) && Good(Without(Two(left, stays), photo), fold)
  {
    hide Without;
    GoodWithout(Two(left, stays), photo, fold);
  }

  lemma RatingLeads(change: Change, before: World, after: World, fold: string -> string)
    requires change.RatingChange? && change.photo in before.photos && Good(after, fold)
    requires before.photos[change.photo].rating == change.ratingBefore
    requires after == before.(photos := before.photos[change.photo :=
               before.photos[change.photo].(rating := change.ratingAfter)])
    ensures Linked([change], before, after, fold) <==> Good(before, fold)
    ensures Leads(change, before, after, fold)
  {
    hide Good;
    assert after.photos[change.photo := before.photos[change.photo]] == before.photos;
    assert Step(before, change, Redo) == after && Step(after, change, Undo) == before;
    var entry := [change];
    assert entry[..0] == [];
  }

  lemma LeftIsRated(before: Option<nat>, after: Option<nat>, stays: Option<nat>, fold: string -> string)
    ensures Linked([RatingChange(1, before, after)], Two(before, stays), Two(after, stays), fold)
  {
    hide Good, Linked;
    TwoIsGood(before, stays, 1, fold);
    TwoIsGood(after, stays, 1, fold);
    var was := Two(before, stays);
    assert Two(after, stays).photos == was.photos[1 := was.photos[1].(rating := after)];
    RatingLeads(RatingChange(1, before, after), was, Two(after, stays), fold);
  }

  lemma StayingIsRated(left: Option<nat>, before: Option<nat>, after: Option<nat>, fold: string -> string)
    ensures Linked([RatingChange(2, before, after)], Two(left, before), Two(left, after), fold)
    ensures Leads(RatingChange(2, before, after), Two(left, before), Two(left, after), fold)
  {
    hide Good, Linked;
    TwoIsGood(left, before, 1, fold);
    TwoIsGood(left, after, 1, fold);
    var was := Two(left, before);
    assert Two(left, after).photos == was.photos[2 := was.photos[2].(rating := after)];
    RatingLeads(RatingChange(2, before, after), was, Two(left, after), fold);
  }

  lemma SharedTrail(fold: string -> string)
    ensures TrailOk([Two(None, None), Two(None, Some(1)), Two(Some(5), Some(3))], [OWN, SHARED], [], fold)
  {
    hide Linked, Leads, Two;
    StayingIsRated(None, None, Some(1), fold);
    LeftIsRated(None, Some(5), Some(1), fold);
    StayingIsRated(Some(5), Some(1), Some(3), fold);
    LinkedAppend([SHARED[0]], Two(None, Some(1)), Two(Some(5), Some(1)), SHARED[1], Two(Some(5), Some(3)), fold);
    assert [OWN[0]] == OWN && [SHARED[0]] + [SHARED[1]] == SHARED;
  }

  lemma SharedGoes()
    ensures ForgetStack([OWN, SHARED], 1) == [OWN]
  {
    assert [OWN, SHARED][..1] == [OWN] && [OWN][..0] == [] && [OWN][0] == OWN;
    assert OWN[..0] == [] && SHARED[..1] == [SHARED[0]] && SHARED[..1][..0] == [];
    assert NotAbout(OWN, 1) == OWN;
    assert NotAbout(SHARED, 1) == [SHARED[1]] && |NotAbout(SHARED, 1)| != |SHARED|;
    assert ForgetIn(OWN, 1) == Some(OWN) && ForgetIn(SHARED, 1) == None;
    hide ForgetIn, NotAbout;
    assert ForgetStack([OWN][..0], 1) == [] && ForgetStack([OWN], 1) == [] + [OWN] == [OWN];
    assert ForgetStack([OWN, SHARED], 1) == ForgetStack([OWN], 1) + [];
  }

  lemma OwnGivesBackLess()
    ensures var now := Without(Two(Some(5), Some(3)), 1);
            After(OWN, TakenBack(OWN, now)) == Without(Two(None, Some(1)), 1) != now
  {
    var now, then_ := Without(Two(Some(5), Some(3)), 1), Without(Two(None, Some(1)), 1);
    assert now.photos == map[2 := Rated(Some(3))] && then_.photos == map[2 := Rated(Some(1))];
    assert now.photos[2] != then_.photos[2];
    assert OWN[..0] == [];
    var back := Step(now, OWN[0], Undo);
    assert back.photos == map[2 := Rated(None)];
    assert TakenBack(OWN, now) == back && After(OWN, back) == Step(back, OWN[0], Redo);
    assert Step(back, OWN[0], Redo).photos == then_.photos;
  }

  /** **A step that went with more than the photo breaks the trail**: a photo is rated, then it and another in one step,
      and the other leaves. The step both were in goes, and the step before it leads to a state that is not the present
      one: undone and made again, it does not give back the rating there was. */
  lemma AStepThatWentTakesMore(fold: string -> string)
    ensures TrailOk([Two(None, None), Two(None, Some(1)), Two(Some(5), Some(3))], [OWN, SHARED], [], fold)
    ensures ForgetStack([OWN, SHARED], 1) == [OWN]
    ensures var now := Without(Two(Some(5), Some(3)), 1);
            && After(OWN, TakenBack(OWN, now)) == Without(Two(None, Some(1)), 1) != now
            && forall before :: !Linked(OWN, before, now, fold)
  {
    hide TrailOk, ForgetStack, Linked, Two, Without, After, TakenBack;
    var now := Without(Two(Some(5), Some(3)), 1);
    SharedTrail(fold);
    SharedGoes();
    OwnGivesBackLess();
    forall before ensures !Linked(OWN, before, now, fold) {
      if Linked(OWN, before, now, fold) {
        EntryGoesBack(OWN, before, now, fold);
        LinkedIsAfter(OWN, before, now, fold);
        assert false;
      }
    }
  }
}
