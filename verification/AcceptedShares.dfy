// What accepting a share does to its photo, said of the photo before and after: each field taken says what the file
// said, the keywords the file lost go, the ones it gained come last with their paths.
module AcceptedShares {
  import opened Wrappers
  import opened Text
  import opened Vocabulary
  import opened KeywordIndex
  import opened PhotoMetadata
  import opened PlaceNames
  import opened Journal
  import opened PhotoEdits
  import opened PhotoChanges
  import opened Sequences
  import opened AcceptedChanges

  // ---------------------------------------------------------------- the fields

  /** A photo before and after it took one thing the file says: a place field whose text changed is decided, like a
      person's write. */
  ghost predicate TakeDone(before: Metadata, after: Metadata, take: Take) {
    match take
    case TakeStars(rating) => after == before.(rating := rating)
    case TakeFlag(flag) => after == before.(flag := flag)
    case TakeLabel(colour) => after == before.(colour := colour)
    case TakeText(field, value) =>
      && Get(after, field) == (if field.List? then Join(Names(value), '\n') else value)
      && (forall f: MetadataField :: f != field ==> Get(after, f) == Get(before, f))
      && (if field.Custom? then LastWith(before.custom, after.custom, field.name, value)
          else after.custom == before.custom)
      && (if field.Line? && field.line.Place? && value != Get(before, field)
          then RecordReleased(before.placeFilled, after.placeFilled, field.line.place, value)
          else after.placeFilled == before.placeFilled)
      && Normal(after)
      && after == before.(lines := after.lines, names := after.names, custom := after.custom,
                          placeFilled := after.placeFilled)
  }

  /** The photo said it already. */
  predicate SaidAlready(before: Metadata, after: Metadata, take: Take) {
    match take
    case TakeStars(rating) => before.rating == rating
    case TakeFlag(flag) => before.flag == flag
    case TakeLabel(colour) => before.colour == colour
    case TakeText(field, _) => Get(after, field) == Get(before, field)
  }

  lemma TakeDoes(meta: Metadata, photo: PhotoId, take: Take)
    requires Normal(meta)
    ensures TakeDone(meta, TakenMeta(meta, take), take) && Normal(TakenMeta(meta, take))
    ensures TakenChange(photo, meta, take).None? <==> SaidAlready(meta, TakenMeta(meta, take), take)
  {
    if take.TakeText? {
      hide Normal, Set, LastWith, RecordReleased, Names, Join, Released, Get;
      SetWrites(meta, take.field, take.value);
      var wrote := Set(meta, take.field, take.value);
      var before, after := Get(meta, take.field), Get(wrote, take.field);
      PhotoChanges.RecordIsApart(wrote, Released(wrote.placeFilled, take.field, before, after));
      if take.field.Line? && take.field.line.Place? && after != before {
        NotEmptyBoth(before, after);
        ReleasedIs(meta.placeFilled, take.field, before, after);
      } else if before != after {
        ReleasedOnlyPlaces(meta.placeFilled, take.field, before, after);
      }
    }
  }

  lemma NotEmptyBoth(a: string, b: string)
    requires a != b
    ensures a != "" || b != ""
  {
  }

  /** The photo after each of the things taken. */
  ghost predicate TakesDone(metas: seq<Metadata>, takes: seq<Take>) {
    && |metas| == |takes| + 1
    && forall n | 0 <= n < |takes| :: TakeDone(metas[n], metas[n + 1], takes[n])
  }

  /** The photo said every one of them already. */
  predicate AllSaid(metas: seq<Metadata>, takes: seq<Take>)
    requires |metas| == |takes| + 1
  {
    forall n | 0 <= n < |takes| :: SaidAlready(metas[n], metas[n + 1], takes[n])
  }

  lemma {:induction false} TakesDo(meta: Metadata, photo: PhotoId, takes: seq<Take>) returns (metas: seq<Metadata>)
    requires Normal(meta)
    ensures TakesDone(metas, takes) && metas[0] == meta && metas[|takes|] == TakenAll(meta, takes)
    ensures Normal(TakenAll(meta, takes))
    ensures ChangesTaken(photo, meta, takes) == [] <==> AllSaid(metas, takes)
  {
    hide TakeDone, SaidAlready, Normal, TakenMeta, TakenChange;
    if takes == [] {
      metas := [meta];
    } else {
      var front, last := takes[..|takes| - 1], takes[|takes| - 1];
      var first := TakesDo(meta, photo, front);
      TakeDoes(TakenAll(meta, front), photo, last);
      metas := first + [TakenAll(meta, takes)];
      OneTakeMore(first, front, TakenAll(meta, takes), last);
      assert takes == front + [last];
    }
  }

  lemma OneTakeMore(metas: seq<Metadata>, takes: seq<Take>, after: Metadata, take: Take)
    requires TakesDone(metas, takes) && TakeDone(metas[|takes|], after, take)
    ensures TakesDone(metas + [after], takes + [take])
    ensures AllSaid(metas + [after], takes + [take]) <==>
              AllSaid(metas, takes) && SaidAlready(metas[|takes|], after, take)
  {
    hide TakeDone, SaidAlready;
    var more, all := metas + [after], takes + [take];
    assert forall n | 0 <= n < |metas| :: more[n] == metas[n];
    assert forall n | 0 <= n < |takes| :: all[n] == takes[n];
    assert more[|takes|] == metas[|takes|] && more[|takes| + 1] == after && all[|takes|] == take;
  }

  // ---------------------------------------------------------------- the keywords

  /** The gained ones at these places come last, with the paths the vocabulary prints for them. */
  predicate Appends(before: KeywordSet, after: KeywordSet, more: seq<KeywordId>, tree: Tree) {
    && after.ids == before.ids + more
    && |after.paths| == |before.paths| + |more| && before.paths <= after.paths
    && forall i | 0 <= i < |more| :: more[i] in tree && after.paths[|before.paths| + i] == PathOf(tree, more[i])
  }

  /** The first of each of the gained ones, when it was not there. */
  predicate AreNew(there: seq<KeywordId>, gained: seq<KeywordId>, at: seq<nat>) {
    forall i | 0 <= i < |gained| :: i in at <==> gained[i] !in there && gained[i] !in gained[..i]
  }

  /** Of the gained ones those that were not there come last, each once and in their order. */
  ghost predicate Gains(before: KeywordSet, after: KeywordSet, gained: seq<KeywordId>, tree: Tree) {
    exists more, at :: Picks(gained, more, at) && AreNew(before.ids, gained, at) && Appends(before, after, more, tree)
  }

  lemma {:induction false} PushGains(keywords: KeywordSet, gained: seq<KeywordId>, tree: Tree)
    returns (more: seq<KeywordId>, at: seq<nat>)
    requires forall k | k in gained :: k in tree
    ensures Picks(gained, more, at) && AreNew(keywords.ids, gained, at)
    ensures Appends(keywords, PushAll(keywords, gained, tree), more, tree)
  {
    hide PathOf, Picks, AreNew, Appends;
    if gained == [] {
      more, at := [], [];
      NothingNew(keywords, tree);
    } else {
      var front, last := gained[..|gained| - 1], gained[|gained| - 1];
      more, at := PushGains(keywords, front, tree);
      PushedHolds(keywords, front, tree);
      PicksMore(front, more, at, last);
      assert gained == front + [last];
      var mid := PushAll(keywords, front, tree);
      OneNewMore(keywords.ids, front, last, at);
      if last !in mid.ids {
        OneAppended(keywords, mid, more, last, tree);
        more, at := more + [last], at + [|front|];
      }
    }
  }

  lemma NothingNew(keywords: KeywordSet, tree: Tree)
    ensures Picks<KeywordId>([], [], []) && AreNew(keywords.ids, [], []) && Appends(keywords, keywords, [], tree)
  {
  }

  lemma OneNewMore(there: seq<KeywordId>, front: seq<KeywordId>, last: KeywordId, at: seq<nat>)
    requires AreNew(there, front, at) && forall i | i in at :: i < |front|
    ensures last in there || last in front ==> AreNew(there, front + [last], at)
    ensures !(last in there || last in front) ==> AreNew(there, front + [last], at + [|front|])
  {
    var gained := front + [last];
    forall i | 0 <= i < |gained|
      ensures i < |front| ==> gained[i] == front[i] && gained[..i] == front[..i]
      ensures i == |front| ==> gained[i] == last && gained[..i] == front
    {
    }
  }

  lemma OneAppended(before: KeywordSet, mid: KeywordSet, more: seq<KeywordId>, last: KeywordId, tree: Tree)
    requires Appends(before, mid, more, tree) && last in tree
    ensures Appends(before, KeywordSet(mid.ids + [last], mid.paths + [PathOf(tree, last)]), more + [last], tree)
  {
    hide PathOf;
  }

  /** The keywords before and after a share: those the file lost, by their printed paths whatever the case, are taken
      off, and those it gained are added. */
  ghost predicate KeywordsTaken(before: KeywordSet, after: KeywordSet, gone: set<string>, gained: seq<KeywordId>,
                                tree: Tree, fold: string -> string)
  {
    exists lost, mid ::
      && (forall k | k in before.ids :: k in lost <==> k in tree && fold(PathOf(tree, k)) in gone)
      && TakesAll(before, mid, lost) && Gains(mid, after, gained, tree)
  }

  lemma KeywordsDo(meta: Metadata, tree: Tree, gone: set<string>, gained: seq<KeywordId>, fold: string -> string)
    requires forall k | k in gained :: k in tree
    ensures KeywordsTaken(KeywordsOf(meta), KeywordsAccepted(meta, tree, gone, gained, fold), gone, gained, tree, fold)
  {
    hide PathOf, TakesAll, Picks, AreNew, Appends, DropFrom, PushAll, Filter;
    var lost := Lost(meta.keywordIds, tree, gone, fold);
    FilterHolds(meta.keywordIds, k => k in tree && fold(PathOf(tree, k)) in gone);
    DropTakesAll(KeywordsOf(meta), lost);
    var more, at := PushGains(DropFrom(KeywordsOf(meta), 0, lost), gained, tree);
    assert Gains(DropFrom(KeywordsOf(meta), 0, lost), KeywordsAccepted(meta, tree, gone, gained, fold), gained, tree);
  }

  // ---------------------------------------------------------------- a whole share

  /** A photo before and after its share: what is taken, one thing after the other, then the keywords; or as it was,
      when it said all of it already. */
  ghost predicate ShareDone(before: Metadata, after: Metadata, share: Share, gained: seq<KeywordId>, tree: Tree,
                            fold: string -> string)
  {
    exists metas, keywords ::
      && TakesDone(metas, share.takes) && metas[0] == before
      && KeywordsTaken(KeywordsOf(metas[|share.takes|]), keywords, share.gone, gained, tree, fold)
      && after == if AllSaid(metas, share.takes) && keywords == KeywordsOf(metas[|share.takes|])
                  then before else WithKeywords(metas[|share.takes|], keywords)
  }

  lemma ShareDoes(before: Metadata, after: Metadata, share: Share, gained: seq<KeywordId>, tree: Tree,
                  fold: string -> string)
    requires Normal(before) && TookShare(before, after, share, gained, tree, fold)
    ensures ShareDone(before, after, share, gained, tree, fold)
  {
    hide TakesDone, KeywordsTaken, SaidAlready, TakenAll, ChangesTaken, KeywordsAccepted, Normal;
    var metas := TakesDo(before, share.photo, share.takes);
    var taken := TakenAll(before, share.takes);
    KeywordsDo(taken, tree, share.gone, gained, fold);
    LastCounts(ChangesTaken(share.photo, before, share.takes),
               KeywordsChange(share.photo, KeywordsOf(taken), KeywordsAccepted(taken, tree, share.gone, gained, fold)));
  }

  lemma LastCounts(entry: Entry, change: Change)
    ensures entry + [change] != [] && entry + [] == entry
  {
  }

  /** The photos before and after an accept: each share done on its photo, every other photo as it was. */
  ghost predicate SharesDone(before: map<PhotoId, Metadata>, after: map<PhotoId, Metadata>, shares: seq<Share>,
                             gained: seq<seq<KeywordId>>, tree: Tree, fold: string -> string)
  {
    && |gained| == |shares| && after.Keys == before.Keys
    && (forall p | p in after && (forall i | 0 <= i < |shares| :: shares[i].photo != p) :: after[p] == before[p])
    && forall i | 0 <= i < |shares| ::
         && shares[i].photo in before
         && ShareDone(before[shares[i].photo], after[shares[i].photo], shares[i], gained[i], tree, fold)
  }

  /** **An accept takes what the files say, and nothing else.** */
  lemma SharesDo(before: map<PhotoId, Metadata>, after: map<PhotoId, Metadata>, shares: seq<Share>,
                 gained: seq<seq<KeywordId>>, tree: Tree, fold: string -> string)
    requires (forall p | p in before :: Normal(before[p])) && SharesTaken(before, after, shares, gained, tree, fold)
    ensures SharesDone(before, after, shares, gained, tree, fold)
  {
    hide TookShare, ShareDone, Normal;
    forall i | 0 <= i < |shares|
      ensures ShareDone(before[shares[i].photo], after[shares[i].photo], shares[i], gained[i], tree, fold)
    {
      ShareDoes(before[shares[i].photo], after[shares[i].photo], shares[i], gained[i], tree, fold);
    }
  }
}
