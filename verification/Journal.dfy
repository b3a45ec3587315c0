// The command journal: a change is a before and after pair, an entry is one action, and two bounded stacks hold what
// Undo and Redo would do. What the journal forgets when a photo leaves.
module Journal {
  import opened Wrappers
  import opened Vocabulary
  import opened VocabularyEdits
  import opened KeywordIndex
  import opened PhotoMetadata
  import opened PlaceNames
  import opened Sequences
  import CollectionTree

  type CollectionId = CollectionTree.CollectionId
  type SeriesId = nat

  datatype MemberRef = PhotoMember(photo: PhotoId) | VersionMember(photo: PhotoId, version: nat)

  datatype Collection = Collection(
    id: CollectionId, name: string, manual: bool, parent: Option<CollectionId>, members: seq<MemberRef>)

  datatype Series = Series(members: seq<PhotoId>, kept: seq<PhotoId>, resolved: bool)

  datatype CollectionDelta = CollectionDelta(id: CollectionId, before: Option<Collection>, after: Option<Collection>)

  datatype KeywordSet = KeywordSet(ids: seq<KeywordId>, paths: seq<string>)

  /** One state change, as it was and as it became. */
  datatype Change =
    | RatingChange(photo: PhotoId, ratingBefore: Option<nat>, ratingAfter: Option<nat>)
    | FlagChange(photo: PhotoId, flagBefore: Option<Flag>, flagAfter: Option<Flag>)
    | LabelChange(photo: PhotoId, labelBefore: Option<string>, labelAfter: Option<string>)
    | KeywordsChange(photo: PhotoId, keywordsBefore: KeywordSet, keywordsAfter: KeywordSet)
    | MetadataChange(photo: PhotoId, field: MetadataField, textBefore: string, textAfter: string,
                     filled: Option<(Option<PlaceFilled>, Option<PlaceFilled>)>)
    | PlaceChange(photo: PhotoId, placeBefore: PlaceState, placeAfter: PlaceState)
    | SeriesChange(series: SeriesId, seriesBefore: Option<Series>, seriesAfter: Option<Series>)
    | VocabularyChange(keywords: seq<KeywordDelta>)
    | CollectionsChange(deltas: seq<CollectionDelta>)

  /** One action of the person's: the changes it made, in the order it made them. */
  type Entry = seq<Change>

  /** The photo a change is about (none for a change of the vocabulary, a series or a collection). */
  function PhotoOf(change: Change): Option<PhotoId> {
    match change
    case SeriesChange(_, _, _) => None
    case VocabularyChange(_) => None
    case CollectionsChange(_) => None
    case _ => Some(change.photo)
  }

  /** Whether the entry changed a state that is not a photo's. */
  predicate HasStateChange(entry: Entry) { exists i :: 0 <= i < |entry| && PhotoOf(entry[i]).None? }

  // ---------------------------------------------------------------- forgetting a photo

  function Filter<T>(items: seq<T>, keep: T -> bool): seq<T> {
    if items == [] then []
    else Filter(items[..|items| - 1], keep) + if keep(items[|items| - 1]) then [items[|items| - 1]] else []
  }

  lemma {:induction false} FilterHolds<T(!new)>(items: seq<T>, keep: T -> bool)
    ensures forall x :: x in Filter(items, keep) <==> x in items && keep(x)
  {
    if items != [] {
      FilterHolds(items[..|items| - 1], keep);
      assert items == items[..|items| - 1] + [items[|items| - 1]];
    }
  }

  /** The length tells whether anything was dropped. */
  lemma {:induction false} FilterLength<T>(items: seq<T>, keep: T -> bool)
    ensures |Filter(items, keep)| <= |items|
    ensures |Filter(items, keep)| == |items| <==> Filter(items, keep) == items
  {
    if items != [] {
      FilterLength(items[..|items| - 1], keep);
      assert items == items[..|items| - 1] + [items[|items| - 1]];
    }
  }

  /** What is kept is picked by its places, in the order it stands in. */
  lemma {:induction false} FilterPicks<T>(items: seq<T>, keep: T -> bool) returns (at: seq<nat>)
    ensures Picks(items, Filter(items, keep), at)
    ensures forall i | 0 <= i < |items| :: i in at <==> keep(items[i])
  {
    if items == [] {
      at := [];
    } else {
      var front, last := items[..|items| - 1], items[|items| - 1];
      at := FilterPicks(front, keep);
      PicksMore(front, Filter(front, keep), at, last);
      assert items == front + [last];
      at := if keep(last) then at + [|front|] else at;
    }
  }

  function Other(photo: PhotoId): PhotoId -> bool { p => p != photo }

  function OtherMember(photo: PhotoId): MemberRef -> bool { (m: MemberRef) => m.photo != photo }

  function OtherChange(photo: PhotoId): Change -> bool { (c: Change) => PhotoOf(c) != Some(photo) }

  function OtherPhotos(photos: seq<PhotoId>, photo: PhotoId): seq<PhotoId> { Filter(photos, Other(photo)) }

  function OtherMembers(members: seq<MemberRef>, photo: PhotoId): seq<MemberRef> {
    Filter(members, OtherMember(photo))
  }

  function ScrubSeries(series: Option<Series>, photo: PhotoId): Option<Series> {
    match series
    case None => None
    case Some(s) => Some(s.(members := OtherPhotos(s.members, photo), kept := OtherPhotos(s.kept, photo)))
  }

  function ScrubCollection(collection: Option<Collection>, photo: PhotoId): Option<Collection> {
    match collection
    case None => None
    case Some(c) => Some(c.(members := OtherMembers(c.members, photo)))
  }

  function ScrubDelta(delta: CollectionDelta, photo: PhotoId): CollectionDelta {
    CollectionDelta(delta.id, ScrubCollection(delta.before, photo), ScrubCollection(delta.after, photo))
  }

  /** A snapshot of a series or of collections without the photo, so that an undo does not put it back. */
  function Scrub(change: Change, photo: PhotoId): Change {
    match change
    case SeriesChange(id, before, after) => SeriesChange(id, ScrubSeries(before, photo), ScrubSeries(after, photo))
    case CollectionsChange(deltas) =>
      CollectionsChange(ScrubDeltas(deltas, photo))
    case _ => change
  }

  function ScrubDeltas(deltas: seq<CollectionDelta>, photo: PhotoId): (scrubbed: seq<CollectionDelta>)
    ensures |scrubbed| == |deltas| && forall i | 0 <= i < |deltas| :: scrubbed[i] == ScrubDelta(deltas[i], photo)
  {
    if deltas == [] then []
    else ScrubDeltas(deltas[..|deltas| - 1], photo) + [ScrubDelta(deltas[|deltas| - 1], photo)]
  }

  function ScrubAll(entry: Entry, photo: PhotoId): (scrubbed: Entry)
    ensures |scrubbed| == |entry| && forall i | 0 <= i < |entry| :: scrubbed[i] == Scrub(entry[i], photo)
  {
    if entry == [] then []
    else ScrubAll(entry[..|entry| - 1], photo) + [Scrub(entry[|entry| - 1], photo)]
  }

  function NotAbout(entry: Entry, photo: PhotoId): Entry {
    Filter(entry, OtherChange(photo))
  }

  /** An entry without a photo: one that changed another state stays, without that photo's changes; one that touched
      the photo otherwise goes whole. */
  function ForgetIn(entry: Entry, photo: PhotoId): Option<Entry> {
    if HasStateChange(entry) then Some(ScrubAll(NotAbout(entry, photo), photo))
    else if NotAbout(entry, photo) == entry then Some(entry)
    else None
  }

  function ForgetStack(stack: seq<Entry>, photo: PhotoId): seq<Entry> {
    if stack == [] then []
    else
      ForgetStack(stack[..|stack| - 1], photo)
      + match ForgetIn(stack[|stack| - 1], photo)
        case Some(entry) => [entry]
        case None => []
  }

  // ---------------------------------------------------------------- what is left says nothing of the photo

  predicate CollectionMentions(collection: Option<Collection>, photo: PhotoId) {
    collection.Some? && exists m :: m in collection.value.members && m.photo == photo
  }

  /** A change about the photo, or holding it in a snapshot. */
  predicate Mentions(change: Change, photo: PhotoId) {
    || PhotoOf(change) == Some(photo)
    || (change.SeriesChange?
        && ((change.seriesBefore.Some? && (photo in change.seriesBefore.value.members
                                           || photo in change.seriesBefore.value.kept))
            || (change.seriesAfter.Some? && (photo in change.seriesAfter.value.members
                                             || photo in change.seriesAfter.value.kept))))
    || (change.CollectionsChange?
        && exists d :: d in change.deltas && (CollectionMentions(d.before, photo)
                                              || CollectionMentions(d.after, photo)))
  }

  predicate Forgotten(stack: seq<Entry>, photo: PhotoId) {
    forall i, j | 0 <= i < |stack| && 0 <= j < |stack[i]| :: !Mentions(stack[i][j], photo)
  }

  lemma ScrubForgets(change: Change, photo: PhotoId)
    requires PhotoOf(change) != Some(photo)
    ensures !Mentions(Scrub(change, photo), photo)
    ensures PhotoOf(Scrub(change, photo)) == PhotoOf(change)
  {
    match change
    case SeriesChange(id, before, after) =>
      ScrubSeriesForgets(before, photo);
      ScrubSeriesForgets(after, photo);
    case CollectionsChange(deltas) =>
      forall d | d in ScrubDeltas(deltas, photo)
        ensures !CollectionMentions(d.before, photo) && !CollectionMentions(d.after, photo)
      {
        var i :| 0 <= i < |deltas| && d == ScrubDelta(deltas[i], photo);
        ScrubCollectionForgets(deltas[i].before, photo);
        ScrubCollectionForgets(deltas[i].after, photo);
      }
    case _ =>
  }

  lemma ScrubSeriesForgets(series: Option<Series>, photo: PhotoId)
    ensures var s := ScrubSeries(series, photo); s.Some? ==> photo !in s.value.members && photo !in s.value.kept
  {
    if series.Some? {
      FilterHolds(series.value.members, Other(photo));
      FilterHolds(series.value.kept, Other(photo));
    }
  }

  lemma ScrubCollectionForgets(collection: Option<Collection>, photo: PhotoId)
    ensures !CollectionMentions(ScrubCollection(collection, photo), photo)
  {
    if collection.Some? {
      FilterHolds(collection.value.members, OtherMember(photo));
    }
  }

  lemma ScrubCollectionUnmentioned(c: Option<Collection>, photo: PhotoId)
    requires !CollectionMentions(c, photo)
    ensures ScrubCollection(c, photo) == c
  {
    if c.Some? {
      AllKept(c.value.members, OtherMember(photo));
    }
  }

  lemma {:induction false} AllKept<T>(items: seq<T>, keep: T -> bool)
    requires forall x | x in items :: keep(x)
    ensures Filter(items, keep) == items
  {
    if items != [] {
      assert items == items[..|items| - 1] + [items[|items| - 1]];
      assert items[|items| - 1] in items;
      AllKept(items[..|items| - 1], keep);
    }
  }

  /** A change that says nothing of the photo is left as it is. */
  lemma ScrubUnmentioned(change: Change, photo: PhotoId)
    requires !Mentions(change, photo)
    ensures Scrub(change, photo) == change
  {
    match change
    case SeriesChange(id, before, after) =>
      if before.Some? {
        AllKept(before.value.members, Other(photo));
        AllKept(before.value.kept, Other(photo));
      }
      if after.Some? {
        AllKept(after.value.members, Other(photo));
        AllKept(after.value.kept, Other(photo));
      }
    case CollectionsChange(deltas) =>
      forall i | 0 <= i < |deltas| ensures ScrubDelta(deltas[i], photo) == deltas[i] {
        assert deltas[i] in deltas;
        ScrubCollectionUnmentioned(deltas[i].before, photo);
        ScrubCollectionUnmentioned(deltas[i].after, photo);
      }
    case _ =>
  }

  /** What is left of an entry says nothing of the photo, and an entry that changed another state is never empty. */
  lemma ForgetInForgets(entry: Entry, photo: PhotoId)
    ensures var left := ForgetIn(entry, photo);
            left.Some? ==>
              && (forall j | 0 <= j < |left.value| :: !Mentions(left.value[j], photo))
              && (HasStateChange(entry) ==> HasStateChange(left.value))
              && (entry != [] ==> left.value != [])
  {
    var left := ForgetIn(entry, photo);
    FilterHolds(entry, OtherChange(photo));
    if HasStateChange(entry) {
      var kept := NotAbout(entry, photo);
      forall j | 0 <= j < |kept| ensures !Mentions(left.value[j], photo) && PhotoOf(left.value[j]) == PhotoOf(kept[j]) {
        assert kept[j] in kept;
        ScrubForgets(kept[j], photo);
      }
      var i :| 0 <= i < |entry| && PhotoOf(entry[i]).None?;
      assert entry[i] in kept;
      var j :| 0 <= j < |kept| && kept[j] == entry[i];
      assert PhotoOf(left.value[j]).None?;
    } else if left.Some? {
      forall j | 0 <= j < |entry| ensures !Mentions(entry[j], photo) {
        assert entry[j] in NotAbout(entry, photo);
        assert PhotoOf(entry[j]).Some?;
      }
    }
  }

  lemma ForgetInAgain(entry: Entry, photo: PhotoId)
    requires forall j | 0 <= j < |entry| :: !Mentions(entry[j], photo)
    ensures ForgetIn(entry, photo) == Some(entry)
  {
    AllKept(entry, OtherChange(photo));
    forall j | 0 <= j < |entry| ensures Scrub(entry[j], photo) == entry[j] {
      ScrubUnmentioned(entry[j], photo);
    }
    assert ScrubAll(entry, photo) == entry;
  }

  /** **Forgetting is complete**: nothing in the stack is about the photo, and no snapshot lists it. */
  lemma {:induction false} ForgettingIsComplete(stack: seq<Entry>, photo: PhotoId)
    ensures Forgotten(ForgetStack(stack, photo), photo)
  {
    if stack != [] {
      ForgettingIsComplete(stack[..|stack| - 1], photo);
      ForgetInForgets(stack[|stack| - 1], photo);
    }
  }

  /** A stack that says nothing of the photo is left as it is. */
  lemma {:induction false} ForgottenStays(stack: seq<Entry>, photo: PhotoId)
    requires Forgotten(stack, photo)
    ensures ForgetStack(stack, photo) == stack
  {
    hide ForgetIn, Mentions;
    if stack != [] {
      var front, last := stack[..|stack| - 1], stack[|stack| - 1];
      assert stack == front + [last];
      ForgottenStays(front, photo);
      ForgetInAgain(last, photo);
    }
  }

  /** **Forgetting again forgets nothing more.** */
  lemma ForgettingIsIdempotent(stack: seq<Entry>, photo: PhotoId)
    ensures ForgetStack(ForgetStack(stack, photo), photo) == ForgetStack(stack, photo)
  {
    ForgettingIsComplete(stack, photo);
    ForgottenStays(ForgetStack(stack, photo), photo);
  }

  predicate NonEmptyEntries(stack: seq<Entry>) { forall i | 0 <= i < |stack| :: stack[i] != [] }

  /** No entry is left empty, and no step is added. */
  lemma {:induction false} NoEntryIsEmptied(stack: seq<Entry>, photo: PhotoId)
    requires NonEmptyEntries(stack)
    ensures NonEmptyEntries(ForgetStack(stack, photo)) && |ForgetStack(stack, photo)| <= |stack|
  {
    hide ForgetIn, HasStateChange, Mentions;
    if stack != [] {
      NoEntryIsEmptied(stack[..|stack| - 1], photo);
      ForgetInForgets(stack[|stack| - 1], photo);
    }
  }

  /** Every entry that changed another state is still there. */
  lemma {:induction false} StateEntriesSurvive(stack: seq<Entry>, photo: PhotoId, n: nat)
    requires n < |stack| && HasStateChange(stack[n])
    ensures ScrubAll(NotAbout(stack[n], photo), photo) in ForgetStack(stack, photo)
    ensures HasStateChange(ScrubAll(NotAbout(stack[n], photo), photo))
  {
    hide HasStateChange, Mentions, NotAbout;
    ForgetInForgets(stack[n], photo);
    if n < |stack| - 1 {
      StateEntriesSurvive(stack[..|stack| - 1], photo, n);
    }
  }

  // ---------------------------------------------------------------- and what is left is all there was of the others

  /** The list without the photo: every other one stays, in its place among the others. */
  ghost predicate PhotosLose(before: seq<PhotoId>, after: seq<PhotoId>, photo: PhotoId) {
    exists at :: Picks(before, after, at) && forall i | 0 <= i < |before| :: i in at <==> before[i] != photo
  }

  ghost predicate MembersLose(before: seq<MemberRef>, after: seq<MemberRef>, photo: PhotoId) {
    exists at :: Picks(before, after, at) && forall i | 0 <= i < |before| :: i in at <==> before[i].photo != photo
  }

  ghost predicate SeriesLoses(before: Option<Series>, after: Option<Series>, photo: PhotoId) {
    && before.Some? == after.Some?
    && (before.Some? ==>
          && PhotosLose(before.value.members, after.value.members, photo)
          && PhotosLose(before.value.kept, after.value.kept, photo)
          && after.value.resolved == before.value.resolved)
  }

  /** A collection without the photo: its other members, in their order, and everything else of it. */
  ghost predicate CollectionLoses(before: Option<Collection>, after: Option<Collection>, photo: PhotoId) {
    && before.Some? == after.Some?
    && (before.Some? ==>
          && MembersLose(before.value.members, after.value.members, photo)
          && after.value == before.value.(members := after.value.members))
  }

  /** A change without the photo in its snapshots. */
  ghost predicate ChangeLoses(before: Change, after: Change, photo: PhotoId) {
    match before
    case SeriesChange(id, was, became) =>
      && after.SeriesChange? && after.series == id
      && SeriesLoses(was, after.seriesBefore, photo) && SeriesLoses(became, after.seriesAfter, photo)
    case CollectionsChange(deltas) =>
      && after.CollectionsChange? && |after.deltas| == |deltas|
      && forall i | 0 <= i < |deltas| ::
           && after.deltas[i].id == deltas[i].id
           && CollectionLoses(deltas[i].before, after.deltas[i].before, photo)
           && CollectionLoses(deltas[i].after, after.deltas[i].after, photo)
    case _ => after == before
  }

  /** An entry without the changes of the photo: the others, in their order. */
  ghost predicate EntryLoses(before: Entry, after: Entry, photo: PhotoId) {
    exists kept, at ::
      && Picks(before, kept, at)
      && (forall i | 0 <= i < |before| :: i in at <==> PhotoOf(before[i]) != Some(photo))
      && |after| == |kept| && forall j | 0 <= j < |kept| :: ChangeLoses(kept[j], after[j], photo)
  }

  /** The entry changed another state than a photo's, or nothing of this photo. */
  predicate Stays(entry: Entry, photo: PhotoId) {
    || (exists i :: 0 <= i < |entry| && PhotoOf(entry[i]).None?)
    || (forall i | 0 <= i < |entry| :: PhotoOf(entry[i]) != Some(photo))
  }

  /** A stack without the photo: the entries that stay, in their order, each without it. */
  ghost predicate StackLoses(before: seq<Entry>, after: seq<Entry>, photo: PhotoId) {
    exists kept, at :: LosesAt(before, after, photo, kept, at)
  }

  /** The entries kept, and where they stood. */
  ghost predicate LosesAt(before: seq<Entry>, after: seq<Entry>, photo: PhotoId, kept: seq<Entry>, at: seq<nat>) {
    && Picks(before, kept, at) && StaysAt(before, photo, at)
    && |after| == |kept| && forall j | 0 <= j < |kept| :: EntryLoses(kept[j], after[j], photo)
  }

  predicate StaysAt(before: seq<Entry>, photo: PhotoId, at: seq<nat>) {
    forall i | 0 <= i < |before| :: i in at <==> Stays(before[i], photo)
  }

  lemma OthersStay(photos: seq<PhotoId>, photo: PhotoId)
    ensures PhotosLose(photos, OtherPhotos(photos, photo), photo)
  {
    hide Filter, Picks;
    var at := FilterPicks(photos, Other(photo));
  }

  lemma OtherMembersStay(members: seq<MemberRef>, photo: PhotoId)
    ensures MembersLose(members, OtherMembers(members, photo), photo)
  {
    hide Filter, Picks;
    var at := FilterPicks(members, OtherMember(photo));
  }

  lemma ScrubLoses(change: Change, photo: PhotoId)
    ensures ChangeLoses(change, Scrub(change, photo), photo)
  {
    hide PhotosLose, MembersLose, OtherPhotos, OtherMembers;
    match change
    case SeriesChange(id, before, after) =>
      ScrubSeriesLoses(before, photo);
      ScrubSeriesLoses(after, photo);
    case CollectionsChange(deltas) =>
      forall i | 0 <= i < |deltas|
        ensures CollectionLoses(deltas[i].before, ScrubCollection(deltas[i].before, photo), photo)
        ensures CollectionLoses(deltas[i].after, ScrubCollection(deltas[i].after, photo), photo)
      {
        ScrubCollectionLoses(deltas[i].before, photo);
        ScrubCollectionLoses(deltas[i].after, photo);
      }
    case _ =>
  }

  lemma ScrubSeriesLoses(series: Option<Series>, photo: PhotoId)
    ensures SeriesLoses(series, ScrubSeries(series, photo), photo)
  {
    hide PhotosLose, OtherPhotos;
    if series.Some? {
      OthersStay(series.value.members, photo);
      OthersStay(series.value.kept, photo);
    }
  }

  lemma ScrubCollectionLoses(collection: Option<Collection>, photo: PhotoId)
    ensures CollectionLoses(collection, ScrubCollection(collection, photo), photo)
  {
    hide MembersLose, OtherMembers;
    if collection.Some? {
      OtherMembersStay(collection.value.members, photo);
    }
  }

  lemma ForgetInLoses(entry: Entry, photo: PhotoId)
    ensures ForgetIn(entry, photo).Some? <==> Stays(entry, photo)
    ensures ForgetIn(entry, photo).Some? ==> EntryLoses(entry, ForgetIn(entry, photo).value, photo)
  {
    hide Filter, Picks, ChangeLoses, Scrub;
    var kept := NotAbout(entry, photo);
    var at := FilterPicks(entry, OtherChange(photo));
    NothingAbout(entry, photo);
    if HasStateChange(entry) {
      forall j | 0 <= j < |kept| ensures ChangeLoses(kept[j], ScrubAll(kept, photo)[j], photo) {
        ScrubLoses(kept[j], photo);
      }
    } else {
      forall j | 0 <= j < |entry| ensures ChangeLoses(entry[j], entry[j], photo) {
        NoStateLosesNothing(entry[j], photo);
      }
    }
  }

  lemma NothingAbout(entry: Entry, photo: PhotoId)
    ensures NotAbout(entry, photo) == entry <==> forall i | 0 <= i < |entry| :: PhotoOf(entry[i]) != Some(photo)
  {
    FilterHolds(entry, OtherChange(photo));
    if forall i | 0 <= i < |entry| :: PhotoOf(entry[i]) != Some(photo) {
      AllKept(entry, OtherChange(photo));
    } else {
      var i :| 0 <= i < |entry| && PhotoOf(entry[i]) == Some(photo);
      assert entry[i] in entry && entry[i] !in NotAbout(entry, photo);
    }
  }

  /** A change of a photo has no snapshot to lose it from. */
  lemma NoStateLosesNothing(change: Change, photo: PhotoId)
    ensures PhotoOf(change).Some? ==> ChangeLoses(change, change, photo)
  {
  }

  lemma StaysMore(front: seq<Entry>, photo: PhotoId, at: seq<nat>, last: Entry)
    requires StaysAt(front, photo, at) && forall i | i in at :: i < |front|
    ensures StaysAt(front + [last], photo, if Stays(last, photo) then at + [|front|] else at)
  {
    hide Stays;
  }

  lemma PlacesInside(items: seq<Entry>, kept: seq<Entry>, at: seq<nat>)
    requires Picks(items, kept, at)
    ensures forall i | i in at :: i < |items|
  {
  }

  lemma OneEntryMoreLoses(front: seq<Entry>, after: seq<Entry>, photo: PhotoId, kept: seq<Entry>, at: seq<nat>,
                          last: Entry, left: Option<Entry>)
    requires LosesAt(front, after, photo, kept, at) && (left.Some? <==> Stays(last, photo))
    requires left.Some? ==> EntryLoses(last, left.value, photo)
    ensures left.Some? ==> LosesAt(front + [last], after + [left.value], photo, kept + [last], at + [|front|])
    ensures left.None? ==> LosesAt(front + [last], after, photo, kept, at)
  {
    hide Picks, StaysAt, Stays, EntryLoses;
    PlacesInside(front, kept, at);
    StaysMore(front, photo, at, last);
    PicksMore(front, kept, at, last);
  }

  /** **Forgetting takes the photo out and nothing else.** */
  lemma {:induction false} ForgettingTakesNothingElse(stack: seq<Entry>, photo: PhotoId)
    returns (kept: seq<Entry>, at: seq<nat>)
    ensures LosesAt(stack, ForgetStack(stack, photo), photo, kept, at)
    ensures StackLoses(stack, ForgetStack(stack, photo), photo)
  {
    hide ForgetIn, LosesAt, EntryLoses, Stays;
    if stack == [] {
      kept, at := [], [];
      NothingLoses(photo);
    } else {
      var front, last := stack[..|stack| - 1], stack[|stack| - 1];
      kept, at := ForgettingTakesNothingElse(front, photo);
      ForgetInLoses(last, photo);
      OneEntryMoreLoses(front, ForgetStack(front, photo), photo, kept, at, last, ForgetIn(last, photo));
      assert stack == front + [last];
      if Stays(last, photo) {
        kept, at := kept + [last], at + [|front|];
      } else {
        assert ForgetStack(front, photo) + [] == ForgetStack(front, photo);
      }
    }
  }

  lemma NothingLoses(photo: PhotoId)
    ensures LosesAt([], [], photo, [], [])
  {
  }

  // ---------------------------------------------------------------- the two stacks

  /** The newest `limit` steps of a stack. */
  function Newest(stack: seq<Entry>, limit: nat): seq<Entry> {
    if |stack| <= limit then stack else stack[|stack| - limit..]
  }

  /** The last steps stay, as many as the limit allows; only the oldest go, and only when there are too many. */
  predicate KeepsNewest(all: seq<Entry>, kept: seq<Entry>, limit: nat) {
    && |kept| <= limit && (|all| <= limit ==> kept == all) && (|all| > limit ==> |kept| == limit)
    && |kept| <= |all| && forall i | 0 <= i < |kept| :: kept[i] == all[|all| - |kept| + i]
  }

  lemma NewestIsKept(all: seq<Entry>, limit: nat)
    ensures KeepsNewest(all, Newest(all, limit), limit)
  {
  }

  class History {
    var undo: seq<Entry>
    var redo: seq<Entry>
    const limit: nat

    /** Between commands the two stacks together hold no more than the limit, and no step is empty. */
    predicate Valid()
      reads this
    {
      limit >= 1 && |undo| + |redo| <= limit && NonEmptyEntries(undo) && NonEmptyEntries(redo)
    }

    constructor WithLimit(limit: nat)
      ensures Valid() && undo == [] && redo == [] && this.limit == if limit < 1 then 1 else limit
    {
      undo, redo := [], [];
      this.limit := if limit < 1 then 1 else limit;
    }

    /** Records a new action: what was undone can no longer be redone, and the oldest step goes when there are too
        many. */
    method Record(entry: Entry)
      requires Valid() && entry != []
      modifies this
      ensures Valid() && redo == [] && undo == Newest(old(undo) + [entry], limit)
      ensures KeepsNewest(old(undo) + [entry], undo, limit)
    {
      hide KeepsNewest;
      redo := [];
      undo := undo + [entry];
      ghost var all := undo;
      NewestIsKept(all, limit);
      while |undo| > limit
        invariant redo == [] && |all| - |undo| >= 0 && undo == all[|all| - |undo|..] && |undo| >= |Newest(all, limit)|
      {
        undo := undo[1..];
      }
    }

    method TakeUndo() returns (taken: Option<Entry>)
      modifies this`undo
      ensures taken == if old(undo) == [] then None else Some(old(undo)[|old(undo)| - 1])
      ensures undo == if old(undo) == [] then [] else old(undo)[..|old(undo)| - 1]
    {
      if undo == [] {
        return None;
      }
      taken := Some(undo[|undo| - 1]);
      undo := undo[..|undo| - 1];
    }

    method TakeRedo() returns (taken: Option<Entry>)
      modifies this`redo
      ensures taken == if old(redo) == [] then None else Some(old(redo)[|old(redo)| - 1])
      ensures redo == if old(redo) == [] then [] else old(redo)[..|old(redo)| - 1]
    {
      if redo == [] {
        return None;
      }
      taken := Some(redo[|redo| - 1]);
      redo := redo[..|redo| - 1];
    }

    method PutRedo(entry: Entry)
      modifies this`redo
      ensures redo == old(redo) + [entry]
    {
      redo := redo + [entry];
    }

    /** A step that was redone can be undone again; the redo stack stays. */
    method PutUndo(entry: Entry)
      modifies this`undo
      ensures undo == Newest(old(undo) + [entry], limit) && KeepsNewest(old(undo) + [entry], undo, limit)
    {
      hide KeepsNewest;
      undo := undo + [entry];
      ghost var all := undo;
      NewestIsKept(all, limit);
      while |undo| > limit
        invariant |all| - |undo| >= 0 && undo == all[|all| - |undo|..] && |undo| >= |Newest(all, limit)|
      {
        undo := undo[1..];
      }
    }

    /** Forgets what the history holds about a photo that left the workspace: whether anything went. */
    method ForgetPhoto(photo: PhotoId) returns (forgot: bool)
      requires Valid()
      modifies this
      ensures Valid()
      ensures undo == ForgetStack(old(undo), photo) && redo == ForgetStack(old(redo), photo)
      ensures StackLoses(old(undo), undo, photo) && StackLoses(old(redo), redo, photo)
      ensures forgot <==> undo != old(undo) || redo != old(redo)
    {
      hide StackLoses, ForgetStack;
      ghost var undoKept, undoAt := ForgettingTakesNothingElse(undo, photo);
      ghost var redoKept, redoAt := ForgettingTakesNothingElse(redo, photo);
      NoEntryIsEmptied(undo, photo);
      NoEntryIsEmptied(redo, photo);
      var undone, forgotU := Forgetting(undo, photo);
      var redone, forgotR := Forgetting(redo, photo);
      forgot := forgotU || forgotR || |undone| + |redone| != |undo| + |redo|;
      undo, redo := undone, redone;
    }
  }

  /** One stack: the entries that changed another state are scrubbed in place, the others are kept or go. Whether an
      entry that stayed lost anything is told by the lengths. */
  method Forgetting(stack: seq<Entry>, photo: PhotoId) returns (after: seq<Entry>, forgot: bool)
    ensures after == ForgetStack(stack, photo) && |after| <= |stack|
    ensures forgot || |after| != |stack| <==> after != stack
  {
    after, forgot := [], false;
    for n := 0 to |stack|
      invariant after == ForgetStack(stack[..n], photo) && |after| <= n
      invariant forgot || |after| != n <==> after != stack[..n]
    {
      hide ForgetIn, ForgetStack;
      ForgetMore(stack, n, photo);
      var left, lost := ForgettingIn(stack[n], photo);
      if left.Some? {
        AppendSame(after, stack[..n], left.value, stack[n]);
        forgot := forgot || lost;
        after := after + [left.value];
      }
    }
    assert stack[..|stack|] == stack;
  }

  lemma ForgetMore(stack: seq<Entry>, n: nat, photo: PhotoId)
    requires n < |stack|
    ensures stack[..n + 1] == stack[..n] + [stack[n]]
    ensures ForgetStack(stack[..n + 1], photo) ==
            ForgetStack(stack[..n], photo) + match ForgetIn(stack[n], photo) case Some(entry) => [entry] case None => []
  {
    hide ForgetIn;
    assert stack[..n + 1][..n] == stack[..n];
  }

  lemma AppendSame<T>(a: seq<T>, b: seq<T>, x: T, y: T)
    requires |a| <= |b|
    ensures a + [x] == b + [y] <==> a == b && x == y
  {
    if a + [x] == b + [y] {
      assert (a + [x])[..|a|] == (b + [y])[..|a|];
      assert (a + [x])[|a|] == (b + [y])[|a|];
    }
  }

  method ForgettingIn(entry: Entry, photo: PhotoId) returns (left: Option<Entry>, lost: bool)
    ensures left == ForgetIn(entry, photo)
    ensures left.Some? ==> (lost <==> left.value != entry)
  {
    lost := false;
    FilterLength(entry, OtherChange(photo));
    if HasStateChange(entry) {
      var kept := NotAbout(entry, photo);
      var scrubbed, scrubbedAny := Scrubbing(kept, photo);
      lost := |kept| != |entry| || scrubbedAny;
      left := Some(scrubbed);
    } else if NotAbout(entry, photo) == entry {
      left := Some(entry);
    } else {
      left := None;
    }
  }

  method Scrubbing(entry: Entry, photo: PhotoId) returns (scrubbed: Entry, lost: bool)
    ensures scrubbed == ScrubAll(entry, photo)
    ensures lost <==> scrubbed != entry
  {
    scrubbed, lost := [], false;
    for n := 0 to |entry|
      invariant |scrubbed| == n && forall i | 0 <= i < n :: scrubbed[i] == Scrub(entry[i], photo)
      invariant lost <==> exists i :: 0 <= i < n && Scrub(entry[i], photo) != entry[i]
    {
      var one := Scrub(entry[n], photo);
      lost := lost || Size(one) != Size(entry[n]);
      SizeTells(entry[n], photo);
      scrubbed := scrubbed + [one];
    }
  }

  function SeriesSize(series: Option<Series>): nat {
    if series.Some? then |series.value.members| + |series.value.kept| else 0
  }

  function CollectionSize(collection: Option<Collection>): nat {
    if collection.Some? then |collection.value.members| else 0
  }

  function DeltasSize(deltas: seq<CollectionDelta>): nat {
    if deltas == [] then 0
    else
      var last := deltas[|deltas| - 1];
      DeltasSize(deltas[..|deltas| - 1]) + CollectionSize(last.before) + CollectionSize(last.after)
  }

  /** How many photos a change's snapshots list. */
  function Size(change: Change): nat {
    match change
    case SeriesChange(_, before, after) => SeriesSize(before) + SeriesSize(after)
    case CollectionsChange(deltas) => DeltasSize(deltas)
    case _ => 0
  }

  /** Counting what the snapshots list tells whether the photo was in them. */
  lemma SizeTells(change: Change, photo: PhotoId)
    ensures Size(Scrub(change, photo)) != Size(change) <==> Scrub(change, photo) != change
  {
    match change
    case SeriesChange(id, before, after) =>
      SeriesSizeTells(before, photo);
      SeriesSizeTells(after, photo);
    case CollectionsChange(deltas) => DeltasSizeTells(deltas, photo);
    case _ =>
  }

  lemma SeriesSizeTells(series: Option<Series>, photo: PhotoId)
    ensures SeriesSize(ScrubSeries(series, photo)) <= SeriesSize(series)
    ensures SeriesSize(ScrubSeries(series, photo)) == SeriesSize(series) <==> ScrubSeries(series, photo) == series
  {
    if series.Some? {
      FilterLength(series.value.members, Other(photo));
      FilterLength(series.value.kept, Other(photo));
    }
  }

  lemma {:induction false} DeltasSizeTells(deltas: seq<CollectionDelta>, photo: PhotoId)
    ensures DeltasSize(ScrubDeltas(deltas, photo)) <= DeltasSize(deltas)
    ensures DeltasSize(ScrubDeltas(deltas, photo)) == DeltasSize(deltas) <==> ScrubDeltas(deltas, photo) == deltas
  {
    if deltas != [] {
      var front, last := deltas[..|deltas| - 1], deltas[|deltas| - 1];
      DeltasSizeTells(front, photo);
      var scrubbed := ScrubDeltas(front, photo);
      assert ScrubDeltas(deltas, photo) == scrubbed + [ScrubDelta(last, photo)];
      assert (scrubbed + [ScrubDelta(last, photo)])[..|scrubbed|] == scrubbed;
      CollectionSizeTells(last.before, photo);
      CollectionSizeTells(last.after, photo);
      assert deltas == front + [last];
      AppendSame(scrubbed, front, ScrubDelta(last, photo), last);
    }
  }

  lemma CollectionSizeTells(collection: Option<Collection>, photo: PhotoId)
    ensures CollectionSize(ScrubCollection(collection, photo)) <= CollectionSize(collection)
    ensures CollectionSize(ScrubCollection(collection, photo)) == CollectionSize(collection)
            <==> ScrubCollection(collection, photo) == collection
  {
    if collection.Some? {
      FilterLength(collection.value.members, OtherMember(photo));
    }
  }
}
