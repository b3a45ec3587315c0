// What the events of the path refresh do to the vocabulary, to what the photos carry and to the updates still to come,
// said of the state before and after.
module PathRefreshEffects {
  import opened Wrappers
  import opened Vocabulary
  import opened VocabularyEdits
  import opened KeywordIndex
  import opened Journal
  import opened PhotoEdits
  import opened PathRefresh
  import WorldChanges

  /** The snapshots a message refreshes: at each place the path it gives the keyword there, or the one that was
      there. */
  predicate Refreshes(before: Carried, after: Carried, paths: Paths) {
    && after.ids == before.ids && |after.paths| == |before.paths|
    && forall i | 0 <= i < |before.paths| ::
         after.paths[i] == if i < |before.ids| && before.ids[i] in paths then paths[before.ids[i]] else before.paths[i]
  }

  /** One photo carries something else, and every other what it did. */
  predicate OnlyCarries(before: map<PhotoId, Carried>, after: map<PhotoId, Carried>, photo: PhotoId, c: Carried) {
    && photo in after && after[photo] == c && after.Keys == before.Keys + {photo}
    && forall p | p in before && p != photo :: after[p] == before[p]
  }

  /** What the photos carry after an event. */
  predicate PhotosMove(s: State, e: Event, t: State)
    requires e.CoordinatorTakes? ==> s.inbound != []
    requires (e.GainKeyword? || e.LoseKeyword?) ==> e.photo in s.photos
    requires e.LoseKeyword? ==> e.at < |s.photos[e.photo].ids|
  {
    match e
    case GainKeyword(photo, keyword) =>
      var c := s.photos[photo];
      OnlyCarries(s.photos, t.photos, photo, Carried(c.ids + [keyword], c.paths + [PathOf(s.tree, keyword)]))
    case LoseKeyword(photo, at) =>
      var c := s.photos[photo];
      OnlyCarries(s.photos, t.photos, photo,
                  Carried(c.ids[..at] + c.ids[at + 1..],
                          if at < |c.paths| then c.paths[..at] + c.paths[at + 1..] else c.paths))
    case PutBack(photo, recorded) => OnlyCarries(s.photos, t.photos, photo, Carried(recorded.ids, recorded.paths))
    case PhotoArrives(photo) => OnlyCarries(s.photos, t.photos, photo, Carried([], []))
    case PhotoLeaves(photo) =>
      photo !in t.photos && t.photos.Keys == s.photos.Keys - {photo}
      && forall p | p in t.photos :: t.photos[p] == s.photos[p]
    case CoordinatorTakes =>
      if s.inbound[0].Refreshed? && s.inbound[0].update.photo in s.photos then
        var update := s.inbound[0].update;
        && update.photo in t.photos
        && OnlyCarries(s.photos, t.photos, update.photo, t.photos[update.photo])
        && Refreshes(s.photos[update.photo], t.photos[update.photo], update.paths)
      else t.photos == s.photos
    case _ => t.photos == s.photos
  }

  /** What the events do to the photos: a refresh touches the snapshots of one, and only the person's commands touch
      what is carried. */
  lemma EventsMovePhotos(s: State, e: Event)
    requires CanHappen(s, e)
    ensures PhotosMove(s, e, Next(s, e))
  {
    hide PathOf, Touched, Overlay, AllPaths, NoMissingParent, Dangles;
  }

  /** Only a change of the vocabulary moves it, to the entries it records. */
  lemma EventsMoveVocabulary(s: State, e: Event)
    requires CanHappen(s, e)
    ensures if e.ChangeVocabulary? then WorldChanges.EntriesTurned(s.tree, Next(s, e).tree, e.deltas, e.direction)
            else Next(s, e).tree == s.tree
  {
    hide PathOf, Touched, Overlay, AllPaths, NoMissingParent, Dangles, WorldChanges.EntriesTurned, RefreshedPaths;
    if e.ChangeVocabulary? {
      WorldChanges.EntriesTurn(s.tree, e.deltas, e.direction);
    }
  }

  /** A change of the vocabulary asks for one update of each photo it touches, with the paths as of the change, behind
      every update that was still to come; or for none when it touches none. */
  lemma ChangesAskForUpdates(s: State, e: Event)
    requires CanHappen(s, e) && e.ChangeVocabulary? && OneAtATime(s)
    ensures Coming(Next(s, e)) ==
            Coming(s) + UpdatesOf(Request(e.affected, map k | k in Next(s, e).tree :: PathOf(Next(s, e).tree, k)))
  {
    hide PathOf, Overlay, NoMissingParent, Dangles, Coming, Touched, OneAtATime;
    var tree := Overlay(s.tree, e.deltas, e.direction);
    var changed, request := s.(tree := tree), Request(e.affected, AllPaths(tree));
    SameComing(s, changed);
    StillOne(s, changed);
    if e.affected == [] && !e.alwaysJob {
      assert Coming(s) + UpdatesOf(request) == Coming(s);
    } else {
      QueueingComesLast(changed, request);
    }
  }

  lemma StillOne(s: State, t: State)
    requires OneAtATime(s) && t.inbound == s.inbound && t.worker == s.worker && t.waiting == s.waiting
             && t.running == s.running
    ensures OneAtATime(t)
  {
  }
}
