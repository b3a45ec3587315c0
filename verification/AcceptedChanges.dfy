// Accepting what another application wrote in a photo's file: the fields taken one by one, the keywords lost and
// gained, and the keywords the vocabulary lacks made first.
module AcceptedChanges {
  import opened Wrappers
  import opened Text
  import opened Vocabulary
  import opened VocabularyEdits
  import opened KeywordIndex
  import opened KeywordText
  import opened PhotoMetadata
  import opened PlaceNames
  import opened Journal
  import opened Worlds
  import opened PhotoEdits
  import opened Sequences

  /** One thing the file says and the photo takes. */
  datatype Take =
    | TakeStars(rating: Option<nat>)
    | TakeFlag(flag: Option<Flag>)
    | TakeLabel(colour: Option<string>)
    | TakeText(field: MetadataField, value: string)

  /** A photo's share of an accept; `gone` and `gained` are keyword paths. */
  datatype Share = Share(photo: PhotoId, takes: seq<Take>, gone: set<string>, gained: seq<string>)

  // ---------------------------------------------------------------- the fields

  function TakenMeta(meta: Metadata, take: Take): Metadata {
    match take
    case TakeStars(rating) => meta.(rating := rating)
    case TakeFlag(flag) => meta.(flag := flag)
    case TakeLabel(colour) => meta.(colour := colour)
    case TakeText(field, value) =>
      var wrote := Set(meta, field, value);
      var before, after := Get(meta, field), Get(wrote, field);
      if before == after then wrote else wrote.(placeFilled := Released(wrote.placeFilled, field, before, after))
  }

  function TakenChange(photo: PhotoId, meta: Metadata, take: Take): Option<Change> {
    var taken := TakenMeta(meta, take);
    match take
    case TakeStars(rating) => if meta.rating != rating then Some(RatingChange(photo, meta.rating, rating)) else None
    case TakeFlag(flag) => if meta.flag != flag then Some(FlagChange(photo, meta.flag, flag)) else None
    case TakeLabel(colour) => if meta.colour != colour then Some(LabelChange(photo, meta.colour, colour)) else None
    case TakeText(field, _) =>
      var before, after := Get(meta, field), Get(taken, field);
      var filled := if taken.placeFilled != meta.placeFilled then Some((meta.placeFilled, taken.placeFilled)) else None;
      if before != after then Some(MetadataChange(photo, field, before, after, filled)) else None
  }

  /** The last text set is the one that stays. */
  lemma SetOver(view: PhotoView, field: MetadataField, first: string, last: string)
    ensures SetView(SetView(view, field, first), field, last) == SetView(view, field, last)
  {
    match field
    case Line(line) => LineOver(view.lines, line, first, last);
    case List(list) => NamesOver(view.names, list, Names(first), Names(last));
    case Custom(name) => CustomOver(view.custom, name, first, last);
  }

  lemma LineOver(lines: map<LineField, string>, line: LineField, first: string, last: string)
    ensures WithLine(WithLine(lines, line, first), line, last) == WithLine(lines, line, last)
  {
  }

  lemma NamesOver(names: map<NamesField, seq<string>>, list: NamesField, first: seq<string>, last: seq<string>)
    ensures WithNames(WithNames(names, list, first), list, last) == WithNames(names, list, last)
  {
  }

  lemma CustomOver(custom: map<string, string>, name: string, first: string, last: string)
    ensures WithCustom(WithCustom(custom, name, first), name, last) == WithCustom(custom, name, last)
  {
  }

  lemma TextRecords(meta: Metadata, photo: PhotoId, field: MetadataField, value: string)
    requires Normal(meta)
    ensures Records(meta, TakenMeta(meta, TakeText(field, value)), TakenChange(photo, meta, TakeText(field, value)))
  {
    hide SetView, GetView, ViewOf, Set, Get, NormalView, Released;
    var wrote, view := Set(meta, field, value), ViewOf(meta);
    SetIsSetView(meta, field, value);
    SetKeepsRecord(meta, field, value);
    GetIsGetView(meta, field);
    GetIsGetView(wrote, field);
    NormalHasNormalView(meta);
    NormalHasNormalView(wrote);
    TextGoesBothWays(view, field, value);
    TextRecorded(meta, wrote, photo, field, value);
  }

  /** Setting the text that was read back, and setting the text that was there before. */
  lemma TextGoesBothWays(view: PhotoView, field: MetadataField, value: string)
    requires NormalView(view) && NormalView(SetView(view, field, value))
    ensures var wrote := SetView(view, field, value);
            && SetView(view, field, GetView(wrote, field)) == wrote
            && SetView(wrote, field, GetView(view, field)) == view
            && (GetView(wrote, field) == GetView(view, field) ==> wrote == view)
  {
    var wrote := SetView(view, field, value);
    TextViewRestores(view, field, value);
    SetSame(wrote, field);
    SetSame(view, field);
    SetOver(view, field, value, GetView(wrote, field));
  }

  lemma TextRecorded(meta: Metadata, wrote: Metadata, photo: PhotoId, field: MetadataField, value: string)
    requires wrote == Set(meta, field, value) && Normal(wrote) && ViewOf(wrote) == SetView(ViewOf(meta), field, value)
    requires Get(meta, field) == GetView(ViewOf(meta), field) && Get(wrote, field) == GetView(ViewOf(wrote), field)
    requires wrote.placeFilled == meta.placeFilled
    requires SetView(ViewOf(meta), field, GetView(ViewOf(wrote), field)) == ViewOf(wrote)
    requires SetView(ViewOf(wrote), field, GetView(ViewOf(meta), field)) == ViewOf(meta)
    requires GetView(ViewOf(wrote), field) == GetView(ViewOf(meta), field) ==> ViewOf(wrote) == ViewOf(meta)
    ensures Records(meta, TakenMeta(meta, TakeText(field, value)), TakenChange(photo, meta, TakeText(field, value)))
  {
    hide SetView, GetView, ViewOf, Get, Released, Set, Normal;
    var take := TakeText(field, value);
    var taken, before, after := TakenMeta(meta, take), Get(meta, field), Get(wrote, field);
    RecordIsApart(wrote, field, taken.placeFilled);
    RecordIsInView(meta);
    RecordIsInView(wrote);
    SetIsApart(ViewOf(wrote), taken.placeFilled, field, before);
    if before != after {
      assert taken == wrote.(placeFilled := taken.placeFilled);
      assert Get(taken, field) == after;
    } else {
      assert taken == wrote;
    }
  }

  lemma RecordIsInView(meta: Metadata)
    ensures ViewOf(meta).placeFilled == meta.placeFilled
  {
  }

  lemma SetIsApart(view: PhotoView, filled: Option<PlaceFilled>, field: MetadataField, value: string)
    ensures SetView(view.(placeFilled := filled), field, value) == SetView(view, field, value).(placeFilled := filled)
    ensures SetView(view, field, value).placeFilled == view.placeFilled
  {
  }

  /** The record of what was filled is no part of a field's text. */
  lemma RecordIsApart(meta: Metadata, field: MetadataField, filled: Option<PlaceFilled>)
    ensures Get(meta.(placeFilled := filled), field) == Get(meta, field)
    ensures ViewOf(meta.(placeFilled := filled)) == ViewOf(meta).(placeFilled := filled)
    ensures Normal(meta.(placeFilled := filled)) == Normal(meta)
  {
  }

  lemma SetKeepsRecord(meta: Metadata, field: MetadataField, value: string)
    ensures Set(meta, field, value).placeFilled == meta.placeFilled
    ensures Set(meta, field, value).keywordIds == meta.keywordIds
  {
  }

  /** **What is taken is recorded**: each thing taken leads from the photo before to the photo after, and back. */
  lemma TakeRecords(meta: Metadata, photo: PhotoId, take: Take)
    requires Normal(meta)
    ensures Records(meta, TakenMeta(meta, take), TakenChange(photo, meta, take))
    ensures TakenMeta(meta, take).keywordIds == meta.keywordIds
    ensures TakenChange(photo, meta, take).Some? ==> PhotoOf(TakenChange(photo, meta, take).value) == Some(photo)
  {
    if take.TakeText? {
      TextRecords(meta, photo, take.field, take.value);
      SetKeepsRecord(meta, take.field, take.value);
    }
  }

  function TakenAll(meta: Metadata, takes: seq<Take>): Metadata {
    if takes == [] then meta else TakenMeta(TakenAll(meta, takes[..|takes| - 1]), takes[|takes| - 1])
  }

  function ChangesTaken(photo: PhotoId, meta: Metadata, takes: seq<Take>): Entry {
    if takes == [] then []
    else
      var front, last := takes[..|takes| - 1], takes[|takes| - 1];
      var change := TakenChange(photo, TakenAll(meta, front), last);
      ChangesTaken(photo, meta, front) + if change.Some? then [change.value] else []
  }

  // ---------------------------------------------------------------- the keywords

  /** The keywords of the photo that the file lost, by their paths whatever the case. */
  function Lost(ids: seq<KeywordId>, tree: Tree, gone: set<string>, fold: string -> string): seq<KeywordId> {
    Filter(ids, k => k in tree && fold(PathOf(tree, k)) in gone)
  }

  /** Keywords added at the end with their paths, the ones that are there already left alone. */
  function PushAll(keywords: KeywordSet, gained: seq<KeywordId>, tree: Tree): KeywordSet
    requires forall k | k in gained :: k in tree
  {
    if gained == [] then keywords
    else
      var front, last := PushAll(keywords, gained[..|gained| - 1], tree), gained[|gained| - 1];
      if last in front.ids then front else KeywordSet(front.ids + [last], front.paths + [PathOf(tree, last)])
  }

  lemma {:induction false} PushedAreKnown(keywords: KeywordSet, gained: seq<KeywordId>, tree: Tree)
    requires forall k | k in gained :: k in tree
    ensures forall k | k in PushAll(keywords, gained, tree).ids :: k in keywords.ids || k in gained
  {
    if gained != [] {
      PushedAreKnown(keywords, gained[..|gained| - 1], tree);
    }
  }

  /** The keywords of a photo after an accept. */
  function KeywordsAccepted(meta: Metadata, tree: Tree, gone: set<string>, gained: seq<KeywordId>,
                            fold: string -> string): KeywordSet
    requires forall k | k in gained :: k in tree
  {
    PushAll(DropFrom(KeywordsOf(meta), 0, Lost(meta.keywordIds, tree, gone, fold)), gained, tree)
  }

  /** **An accept gives a photo what the file gained and takes what it lost**: a keyword is there afterwards exactly
      when it was gained, or it was there and the file did not lose it. */
  lemma AcceptedKeywords(meta: Metadata, tree: Tree, gone: set<string>, gained: seq<KeywordId>, fold: string -> string)
    requires forall k | k in gained :: k in tree
    ensures forall k :: k in KeywordsAccepted(meta, tree, gone, gained, fold).ids <==>
              k in gained || (k in meta.keywordIds && !(k in tree && fold(PathOf(tree, k)) in gone))
  {
    var lost := Lost(meta.keywordIds, tree, gone, fold);
    DropLeavesTheOthers(KeywordsOf(meta), 0, lost);
    assert meta.keywordIds[0..] == meta.keywordIds;
    FilterHolds(meta.keywordIds, Outside(lost));
    FilterHolds(meta.keywordIds, k => k in tree && fold(PathOf(tree, k)) in gone);
    PushedHolds(DropFrom(KeywordsOf(meta), 0, lost), gained, tree);
  }

  lemma {:induction false} PushedHolds(keywords: KeywordSet, gained: seq<KeywordId>, tree: Tree)
    requires forall k | k in gained :: k in tree
    ensures forall k :: k in PushAll(keywords, gained, tree).ids <==> k in keywords.ids || k in gained
  {
    if gained != [] {
      PushedHolds(keywords, gained[..|gained| - 1], tree);
      assert gained == gained[..|gained| - 1] + [gained[|gained| - 1]];
    }
  }

  /** The photo after its share of an accept. */
  function AcceptedMeta(meta: Metadata, share: Share, gained: seq<KeywordId>, tree: Tree,
                        fold: string -> string): Metadata
    requires forall k | k in gained :: k in tree
  {
    var taken := TakenAll(meta, share.takes);
    WithKeywords(taken, KeywordsAccepted(taken, tree, share.gone, gained, fold))
  }

  /** What it records, the keywords last. */
  function AcceptedEntry(meta: Metadata, share: Share, gained: seq<KeywordId>, tree: Tree,
                         fold: string -> string): Entry
    requires forall k | k in gained :: k in tree
  {
    var taken := TakenAll(meta, share.takes);
    var keywords := KeywordsAccepted(taken, tree, share.gone, gained, fold);
    ChangesTaken(share.photo, meta, share.takes)
    + if keywords == KeywordsOf(taken) then [] else [KeywordsChange(share.photo, KeywordsOf(taken), keywords)]
  }

  lemma {:induction false} TakenKeepsPaths(photo: PhotoId, meta: Metadata, takes: seq<Take>)
    ensures TakenAll(meta, takes).keywordPaths == meta.keywordPaths
    ensures forall i | 0 <= i < |ChangesTaken(photo, meta, takes)| ::
              !ChangesTaken(photo, meta, takes)[i].KeywordsChange?
  {
    if takes != [] {
      TakenKeepsPaths(photo, meta, takes[..|takes| - 1]);
    }
  }

  /** What a share records brings the path snapshots back. */
  lemma AcceptedPathsBack(photos: map<PhotoId, Metadata>, share: Share, gained: seq<KeywordId>, tree: Tree,
                          fold: string -> string)
    requires share.photo in photos && forall k | k in gained :: k in tree
    ensures var meta := photos[share.photo];
            PathsBack(Snapshots(photos[share.photo := AcceptedMeta(meta, share, gained, tree, fold)]),
                      AcceptedEntry(meta, share, gained, tree, fold)) == Snapshots(photos)
  {
    hide TakenAll, ChangesTaken, KeywordsAccepted;
    var meta := photos[share.photo];
    var taken := TakenAll(meta, share.takes);
    var keywords := KeywordsAccepted(taken, tree, share.gone, gained, fold);
    var fields, paths := ChangesTaken(share.photo, meta, share.takes), Snapshots(photos);
    TakenKeepsPaths(share.photo, meta, share.takes);
    OthersLeavePaths(paths, fields);
    var last := KeywordsChange(share.photo, KeywordsOf(taken), keywords);
    var after := Snapshots(photos[share.photo := WithKeywords(taken, keywords)]);
    assert paths[share.photo := keywords.paths] == after;
    assert after[share.photo := taken.keywordPaths] == paths;
    if keywords == KeywordsOf(taken) {
      assert fields + [] == fields && after == paths;
    } else {
      PathsBackJoin(after, fields, [last]);
      assert StepPaths(after, last, Undo) == paths && [last][..0] == [];
    }
  }

  // ---------------------------------------------------------------- the whole share leads there and back

  function With(world: World, photo: PhotoId, meta: Metadata): World {
    world.(photos := world.photos[photo := ViewOf(meta)])
  }

  lemma WithIsGood(world: World, photo: PhotoId, meta: Metadata, fold: string -> string)
    requires Good(world, fold) && Normal(meta) && forall k | k in meta.keywordIds :: k in world.tree
    ensures Good(With(world, photo, meta), fold)
  {
    hide WellFormed;
    NormalHasNormalView(meta);
  }

  /** One change more of the same photo. */
  lemma OneTaken(entry: Entry, before: World, photo: PhotoId, meta: Metadata, after: Metadata, change: Change,
                 fold: string -> string)
    requires Linked(entry, before, With(before, photo, meta), fold) && photo in before.photos
    requires Good(With(before, photo, after), fold) && PhotoOf(change) == Some(photo)
    requires ApplyToView(change, ViewOf(meta), Redo) == ViewOf(after)
             && ApplyToView(change, ViewOf(after), Undo) == ViewOf(meta)
    ensures Linked(entry + [change], before, With(before, photo, after), fold)
  {
    hide Good, Linked, ApplyToView;
    var mid, last := With(before, photo, meta), With(before, photo, after);
    assert mid.photos[photo := ViewOf(after)] == last.photos && last.photos[photo := ViewOf(meta)] == mid.photos;
    LinkedAppend(entry, before, mid, change, last, fold);
  }

  lemma {:induction false} TakesLink(before: World, photo: PhotoId, meta: Metadata, takes: seq<Take>,
                                     fold: string -> string)
    requires Good(before, fold) && photo in before.photos && before.photos[photo] == ViewOf(meta) && Normal(meta)
    requires forall k | k in meta.keywordIds :: k in before.tree
    ensures Normal(TakenAll(meta, takes)) && TakenAll(meta, takes).keywordIds == meta.keywordIds
    ensures Linked(ChangesTaken(photo, meta, takes), before, With(before, photo, TakenAll(meta, takes)), fold)
  {
    hide Good, Normal, TakenMeta, TakenChange, ApplyToView, ViewOf, Leads;
    if takes == [] {
      assert before.photos[photo := ViewOf(meta)] == before.photos;
    } else {
      var front, last := takes[..|takes| - 1], takes[|takes| - 1];
      TakesLink(before, photo, meta, front, fold);
      var mid := TakenAll(meta, front);
      TakeRecords(mid, photo, last);
      hide Linked;
      WithIsGood(before, photo, TakenMeta(mid, last), fold);
      var change := TakenChange(photo, mid, last);
      if change.Some? {
        OneTaken(ChangesTaken(photo, meta, front), before, photo, mid, TakenMeta(mid, last), change.value, fold);
      } else {
        assert ChangesTaken(photo, meta, takes) == ChangesTaken(photo, meta, front);
      }
    }
  }

  /** **A share leads from the photo before to the photo after, and back.** */
  lemma ShareLinks(before: World, meta: Metadata, share: Share, gained: seq<KeywordId>, fold: string -> string)
    requires Good(before, fold) && share.photo in before.photos && before.photos[share.photo] == ViewOf(meta)
             && Normal(meta)
    requires (forall k | k in meta.keywordIds :: k in before.tree) && forall k | k in gained :: k in before.tree
    ensures Normal(AcceptedMeta(meta, share, gained, before.tree, fold))
    ensures forall k | k in AcceptedMeta(meta, share, gained, before.tree, fold).keywordIds :: k in before.tree
    ensures Linked(AcceptedEntry(meta, share, gained, before.tree, fold), before,
                   With(before, share.photo, AcceptedMeta(meta, share, gained, before.tree, fold)), fold)
  {
    hide Good, Normal, KeywordsAccepted, TakenAll, Linked, ChangesTaken;
    TakesLink(before, share.photo, meta, share.takes, fold);
    var taken, after := TakenAll(meta, share.takes), AcceptedMeta(meta, share, gained, before.tree, fold);
    var keywords := KeywordsAccepted(taken, before.tree, share.gone, gained, fold);
    AcceptedKeywords(taken, before.tree, share.gone, gained, fold);
    KeywordsRecord(taken, share.photo, keywords);
    WithIsGood(before, share.photo, after, fold);
    if keywords == KeywordsOf(taken) {
      assert after == taken;
      assert ChangesTaken(share.photo, meta, share.takes) + [] == ChangesTaken(share.photo, meta, share.takes);
    } else {
      OneTaken(ChangesTaken(share.photo, meta, share.takes), before, share.photo, taken, after,
               KeywordsChange(share.photo, KeywordsOf(taken), keywords), fold);
    }
  }

  // ---------------------------------------------------------------- the keywords the vocabulary lacks

  /** The deltas that make entries. */
  function Making(created: seq<KeywordEntry>): (deltas: seq<KeywordDelta>)
    ensures |deltas| == |created|
    ensures forall i | 0 <= i < |created| :: deltas[i] == KeywordDelta(created[i].id, None, Some(created[i]))
  {
    seq(|created|, i requires 0 <= i < |created| => KeywordDelta(created[i].id, None, Some(created[i])))
  }

  lemma {:induction false} MakingMakes(vocabulary: seq<KeywordEntry>, created: seq<KeywordEntry>)
    ensures Overlay(ById(vocabulary), Making(created), Redo) == ById(vocabulary + created)
  {
    if created == [] {
      assert vocabulary + created == vocabulary;
    } else {
      var front, last := created[..|created| - 1], created[|created| - 1];
      assert Making(created)[..|created| - 1] == Making(front);
      assert vocabulary + created == (vocabulary + front) + [last];
      MakingMakes(vocabulary, front);
      ByIdAppend(vocabulary + front, last);
    }
  }

  lemma MakingIsProper(vocabulary: seq<KeywordEntry>, created: seq<KeywordEntry>)
    requires Distinct(vocabulary + created)
    ensures Proper(Making(created)) && Agrees(ById(vocabulary), Making(created))
    ensures forall d | d in Making(created) :: d.after.Some?
  {
    var all := vocabulary + created;
    forall i, j | 0 <= i < j < |created| ensures created[i].id != created[j].id {
      assert all[|vocabulary| + i].id != all[|vocabulary| + j].id;
    }
    assert Distinct(vocabulary) by {
      forall i, j | 0 <= i < j < |vocabulary| ensures vocabulary[i].id != vocabulary[j].id {
        assert all[i].id != all[j].id;
      }
    }
    ByIdHolds(vocabulary);
    forall i, e | 0 <= i < |created| && e in vocabulary ensures created[i].id != e.id {
      var j :| 0 <= j < |vocabulary| && vocabulary[j] == e;
      assert all[j].id != all[|vocabulary| + i].id;
    }
    forall i | 0 <= i < |created| ensures created[i].id !in ById(vocabulary) {
      assert forall k | k in ById(vocabulary) :: ById(vocabulary)[k] in vocabulary && ById(vocabulary)[k].id == k;
    }
  }

  /** Reading a path draws new keywords from the supply alone. */
  lemma {:induction false} ResolveDraws(vocabulary: seq<KeywordEntry>, parent: Option<KeywordId>, segments: seq<string>,
                                        supply: seq<KeywordId>, fold: string -> string)
    requires |supply| >= |segments|
    ensures forall e | e in Resolve(vocabulary, parent, segments, supply, fold).0 :: e in vocabulary || e.id in supply
    decreases |segments|
  {
    if segments != [] {
      var (after, at, left) := Down(vocabulary, parent, segments[0], supply, fold);
      ResolveDraws(after, at, segments[1..], left, fold);
    }
  }

  /** Supplies of identifiers, one for each path, none of them used. */
  predicate Supplied(paths: seq<string>, supplies: seq<seq<KeywordId>>, vocabulary: seq<KeywordEntry>) {
    && |supplies| == |paths|
    && (forall i | 0 <= i < |paths| ::
          |supplies[i]| >= |PathSegments(paths[i])| && Unused(ById(vocabulary), supplies[i]))
    && forall i, j, k | 0 <= i < j < |paths| && k in supplies[i] :: k !in supplies[j]
  }

  /** A path reads as a keyword: one exactly when the path has a name in it, and its own path says those names. */
  predicate ReadsAs(vocabulary: seq<KeywordEntry>, path: string, leaf: Option<KeywordId>, fold: string -> string) {
    && (leaf.Some? <==> PathSegments(path) != [])
    && (leaf.Some? ==> && leaf.value in ById(vocabulary)
                       && SameNames(PathNames(ById(vocabulary), leaf.value), PathSegments(path), fold))
  }

  lemma ReadsNow(vocabulary: seq<KeywordEntry>, path: string, supply: seq<KeywordId>, fold: string -> string)
    requires Distinct(vocabulary) && WellFormed(ById(vocabulary), fold)
    requires Unused(ById(vocabulary), supply) && |supply| >= |PathSegments(path)|
    ensures var (after, leaf) := Resolve(vocabulary, None, PathSegments(path), supply, fold);
            ReadsAs(after, path, leaf, fold)
  {
    AnyPathResolves(vocabulary, path, supply, fold);
    var (after, leaf) := Resolve(vocabulary, None, PathSegments(path), supply, fold);
    if leaf.Some? {
      PrintedSegments(ById(after), leaf.value);
    }
  }

  /** Keywords that are added change no path that was there. */
  lemma ReadsStill(vocabulary: seq<KeywordEntry>, more: seq<KeywordEntry>, path: string, leaf: Option<KeywordId>,
                   fold: string -> string)
    requires Distinct(vocabulary) && Distinct(more) && vocabulary <= more && NoMissingParent(ById(vocabulary))
    requires ReadsAs(vocabulary, path, leaf, fold)
    ensures ReadsAs(more, path, leaf, fold)
  {
    if leaf.Some? {
      var tree, grown := ById(vocabulary), ById(more);
      ByIdHolds(vocabulary);
      ByIdHolds(more);
      forall k | k in tree ensures k in grown && grown[k] == tree[k] {
        var i :| 0 <= i < |vocabulary| && vocabulary[i] == tree[k];
        assert more[i] == tree[k];
      }
      ChainInTree(tree, leaf, {});
      SameChain(grown, tree, leaf, {});
      SameSegments(grown, tree, Chain(tree, leaf, {}));
    }
  }

  /** What one supply was drawn from is not in another. */
  lemma StillUnused(vocabulary: seq<KeywordEntry>, working: seq<KeywordEntry>, paths: seq<string>,
                    supplies: seq<seq<KeywordId>>, n: nat)
    requires Distinct(vocabulary) && Supplied(paths, supplies, vocabulary) && n < |paths| && Distinct(working)
    requires forall e | e in working :: e in vocabulary || exists i :: 0 <= i < n && e.id in supplies[i]
    ensures Unused(ById(working), supplies[n]) && |supplies[n]| >= |PathSegments(paths[n])|
  {
    hide ById, Distinct, PathSegments;
    ByIdHolds(vocabulary);
    ByIdHolds(working);
    forall e, j | e in working && 0 <= j < |supplies[n]| ensures e.id != supplies[n][j] {
      NotDrawn(vocabulary, paths, supplies, n, e, j);
    }
  }

  lemma NotDrawn(vocabulary: seq<KeywordEntry>, paths: seq<string>, supplies: seq<seq<KeywordId>>, n: nat,
                 e: KeywordEntry, j: nat)
    requires Distinct(vocabulary) && Supplied(paths, supplies, vocabulary) && n < |paths| && j < |supplies[n]|
    requires e in vocabulary || exists i :: 0 <= i < n && e.id in supplies[i]
    ensures e.id != supplies[n][j]
  {
    ByIdHolds(vocabulary);
    assert supplies[n][j] in supplies[n] && supplies[n][j] !in ById(vocabulary);
  }

  /** Every keyword was there or has one of the identifiers that were given for the first paths. */
  predicate Drawn(vocabulary: seq<KeywordEntry>, working: seq<KeywordEntry>, supplies: seq<seq<KeywordId>>, n: nat)
    requires n <= |supplies|
  {
    forall e | e in working :: e in vocabulary || exists i :: 0 <= i < n && e.id in supplies[i]
  }

  /** One more path resolved, and what the ones before it read as. */
  lemma OneMorePath(vocabulary: seq<KeywordEntry>, working: seq<KeywordEntry>, paths: seq<string>,
                    supplies: seq<seq<KeywordId>>, n: nat, leaves: seq<Option<KeywordId>>, fold: string -> string)
    requires Distinct(vocabulary) && Supplied(paths, supplies, vocabulary) && n < |paths| && vocabulary <= working
    requires Distinct(working) && WellFormed(ById(working), fold) && Drawn(vocabulary, working, supplies, n)
    requires |leaves| == n && forall i | 0 <= i < n :: ReadsAs(working, paths[i], leaves[i], fold)
    ensures Unused(ById(working), supplies[n]) && |supplies[n]| >= |PathSegments(paths[n])|
    ensures var (more, leaf) := Resolve(working, None, PathSegments(paths[n]), supplies[n], fold);
            && working <= more && Distinct(more) && WellFormed(ById(more), fold)
            && Drawn(vocabulary, more, supplies, n + 1) && ReadsAs(more, paths[n], leaf, fold)
            && forall i | 0 <= i < n :: ReadsAs(more, paths[i], leaves[i], fold)
  {
    hide WellFormed, PathSegments, Resolve, ReadsAs, Unused, Distinct;
    StillUnused(vocabulary, working, paths, supplies, n);
    AnyPathResolves(working, paths[n], supplies[n], fold);
    ReadsNow(working, paths[n], supplies[n], fold);
    ResolveDraws(working, None, PathSegments(paths[n]), supplies[n], fold);
    NoneMissing(working, fold);
    var (more, leaf) := Resolve(working, None, PathSegments(paths[n]), supplies[n], fold);
    forall i | 0 <= i < n ensures ReadsAs(more, paths[i], leaves[i], fold) {
      ReadsStill(working, more, paths[i], leaves[i], fold);
    }
  }

  /** The keyword of each path, making what is missing on a copy of the vocabulary. */
  method ResolveAll(vocabulary: seq<KeywordEntry>, paths: seq<string>, supplies: seq<seq<KeywordId>>,
                    fold: string -> string)
    returns (working: seq<KeywordEntry>, leaves: seq<Option<KeywordId>>)
    requires Distinct(vocabulary) && WellFormed(ById(vocabulary), fold) && Supplied(paths, supplies, vocabulary)
    ensures vocabulary <= working && Distinct(working) && WellFormed(ById(working), fold)
    ensures |leaves| == |paths| && forall i | 0 <= i < |paths| :: ReadsAs(working, paths[i], leaves[i], fold)
  {
    hide WellFormed, PathSegments, Resolve, ReadsAs, Unused, Distinct;
    working, leaves := vocabulary, [];
    for n := 0 to |paths|
      invariant vocabulary <= working && Distinct(working) && WellFormed(ById(working), fold)
      invariant Drawn(vocabulary, working, supplies, n)
      invariant |leaves| == n && forall i | 0 <= i < n :: ReadsAs(working, paths[i], leaves[i], fold)
    {
      OneMorePath(vocabulary, working, paths, supplies, n, leaves, fold);
      hide Drawn, Supplied;
      var leaf;
      working, leaf := ResolveKeywordPath(working, paths[n], supplies[n], fold);
      leaves := leaves + [leaf];
    }
  }

  lemma NoneMissing(vocabulary: seq<KeywordEntry>, fold: string -> string)
    requires WellFormed(ById(vocabulary), fold)
    ensures NoMissingParent(ById(vocabulary))
  {
  }

  // ---------------------------------------------------------------- the paths of several shares

  /** The keyword paths the files gained, share by share. */
  function PathsOf(shares: seq<Share>): seq<string> {
    if shares == [] then [] else PathsOf(shares[..|shares| - 1]) + shares[|shares| - 1].gained
  }

  lemma {:induction false} PathsAt(shares: seq<Share>, i: nat)
    requires i < |shares|
    ensures var from := |PathsOf(shares[..i])|;
            && from + |shares[i].gained| <= |PathsOf(shares)|
            && PathsOf(shares)[from..from + |shares[i].gained|] == shares[i].gained
  {
    var front := shares[..|shares| - 1];
    if i < |shares| - 1 {
      PathsAt(front, i);
      assert front[..i] == shares[..i];
      var from := |PathsOf(shares[..i])|;
      assert PathsOf(shares)[from..from + |shares[i].gained|] == PathsOf(front)[from..from + |shares[i].gained|];
    } else {
      assert shares[..i] == front;
    }
  }

  function Somes(leaves: seq<Option<KeywordId>>): seq<KeywordId> {
    if leaves == [] then []
    else Somes(leaves[..|leaves| - 1]) + if leaves[|leaves| - 1].Some? then [leaves[|leaves| - 1].value] else []
  }

  /** The keywords a share gains: one for each path with a name in it, in their order, each in the vocabulary and with
      that path's names. */
  ghost predicate Answers(share: Share, gained: seq<KeywordId>, tree: Tree, fold: string -> string) {
    exists named, at ::
      Picks(share.gained, named, at) && HaveNames(share.gained, at) && Named(named, gained, tree, fold)
  }

  predicate HaveNames(paths: seq<string>, at: seq<nat>) {
    forall i | 0 <= i < |paths| :: i in at <==> PathSegments(paths[i]) != []
  }

  predicate Named(paths: seq<string>, gained: seq<KeywordId>, tree: Tree, fold: string -> string) {
    |gained| == |paths| && forall i | 0 <= i < |gained| ::
                             gained[i] in tree && SameNames(PathNames(tree, gained[i]), PathSegments(paths[i]), fold)
  }

  lemma SharesAnswered(vocabulary: seq<KeywordEntry>, shares: seq<Share>, leaves: seq<Option<KeywordId>>, i: nat,
                       fold: string -> string)
    requires i < |shares| && |leaves| == |PathsOf(shares)|
    requires forall j | 0 <= j < |leaves| :: ReadsAs(vocabulary, PathsOf(shares)[j], leaves[j], fold)
    ensures var from := |PathsOf(shares[..i])|;
            && from + |shares[i].gained| <= |leaves|
            && Answers(shares[i], Somes(leaves[from..from + |shares[i].gained|]), ById(vocabulary), fold)
  {
    hide PathsOf, Somes, ReadsAs, Answers, PathSegments;
    PathsAt(shares, i);
    var from, to := |PathsOf(shares[..i])|, |PathsOf(shares[..i])| + |shares[i].gained|;
    forall j | 0 <= j < |shares[i].gained| ensures ReadsAs(vocabulary, shares[i].gained[j], leaves[from..to][j], fold) {
      assert PathsOf(shares)[from..to][j] == PathsOf(shares)[from + j];
    }
    OneAnswered(vocabulary, shares[i], leaves[from..to], fold);
  }

  lemma {:induction false} SomesAnswer(vocabulary: seq<KeywordEntry>, paths: seq<string>,
                                       leaves: seq<Option<KeywordId>>, fold: string -> string)
    returns (named: seq<string>, at: seq<nat>)
    requires |leaves| == |paths|
    requires forall j | 0 <= j < |leaves| :: ReadsAs(vocabulary, paths[j], leaves[j], fold)
    ensures Picks(paths, named, at) && HaveNames(paths, at) && Named(named, Somes(leaves), ById(vocabulary), fold)
  {
    hide SameNames, PathNames, PathSegments, ById, Picks;
    if leaves == [] {
      named, at := [], [];
      PicksAll(paths);
      assert Places(0) == [];
    } else {
      var n := |leaves| - 1;
      named, at := SomesAnswer(vocabulary, paths[..n], leaves[..n], fold);
      assert ReadsAs(vocabulary, paths[n], leaves[n], fold);
      PicksMore(paths[..n], named, at, paths[n]);
      assert paths == paths[..n] + [paths[n]];
      if leaves[n].Some? {
        named, at := named + [paths[n]], at + [n];
      }
    }
  }

  lemma OneAnswered(vocabulary: seq<KeywordEntry>, share: Share, leaves: seq<Option<KeywordId>>, fold: string -> string)
    requires |leaves| == |share.gained|
    requires forall j | 0 <= j < |leaves| :: ReadsAs(vocabulary, share.gained[j], leaves[j], fold)
    ensures Answers(share, Somes(leaves), ById(vocabulary), fold)
  {
    hide ReadsAs, Picks, HaveNames, Named, Somes, ById;
    var named, at := SomesAnswer(vocabulary, share.gained, leaves, fold);
  }

  /** A photo after its share: rewritten when the share changed something. */
  predicate TookShare(before: Metadata, after: Metadata, share: Share, gained: seq<KeywordId>, tree: Tree,
                      fold: string -> string) {
    && (forall k | k in gained :: k in tree)
    && after == if AcceptedEntry(before, share, gained, tree, fold) == [] then before
                else AcceptedMeta(before, share, gained, tree, fold)
  }

  /** The photos after the first shares. */
  predicate SharesTaken(before: map<PhotoId, Metadata>, after: map<PhotoId, Metadata>, shares: seq<Share>,
                        gained: seq<seq<KeywordId>>, tree: Tree, fold: string -> string)
  {
    && |gained| == |shares| && after.Keys == before.Keys
    && (forall p | p in after && (forall i | 0 <= i < |shares| :: shares[i].photo != p) :: after[p] == before[p])
    && forall i | 0 <= i < |shares| ::
         shares[i].photo in before && TookShare(before[shares[i].photo], after[shares[i].photo], shares[i], gained[i],
                                                tree, fold)
  }

  lemma ShareTook(mid: map<PhotoId, Metadata>, after: map<PhotoId, Metadata>, share: Share, gained: seq<KeywordId>,
                  tree: Tree, fold: string -> string)
    requires share.photo in mid && forall k | k in gained :: k in tree
    requires after == if AcceptedEntry(mid[share.photo], share, gained, tree, fold) == [] then mid
                      else mid[share.photo := AcceptedMeta(mid[share.photo], share, gained, tree, fold)]
    ensures after.Keys == mid.Keys && TookShare(mid[share.photo], after[share.photo], share, gained, tree, fold)
    ensures forall p | p in mid && p != share.photo :: after[p] == mid[p]
  {
    hide AcceptedEntry, AcceptedMeta;
  }

  lemma OneShareMore(before: map<PhotoId, Metadata>, mid: map<PhotoId, Metadata>, after: map<PhotoId, Metadata>,
                     shares: seq<Share>, gained: seq<seq<KeywordId>>, share: Share, more: seq<KeywordId>, tree: Tree,
                     fold: string -> string)
    requires SharesTaken(before, mid, shares, gained, tree, fold)
    requires share.photo in mid && after.Keys == mid.Keys
             && (forall i | 0 <= i < |shares| :: shares[i].photo != share.photo)
    requires TookShare(mid[share.photo], after[share.photo], share, more, tree, fold)
    requires forall p | p in mid && p != share.photo :: after[p] == mid[p]
    ensures SharesTaken(before, after, shares + [share], gained + [more], tree, fold)
  {
    hide TookShare;
    var all, allGained := shares + [share], gained + [more];
    assert mid[share.photo] == before[share.photo];
    forall i | 0 <= i < |all|
      ensures all[i].photo in before && TookShare(before[all[i].photo], after[all[i].photo], all[i], allGained[i], tree,
                                                  fold)
    {
      if i < |shares| {
        assert all[i] == shares[i] && allGained[i] == gained[i];
      }
    }
    forall p | p in after && (forall i | 0 <= i < |all| :: all[i].photo != p) ensures after[p] == before[p] {
      assert all[|shares|].photo != p;
      assert forall i | 0 <= i < |shares| :: all[i] == shares[i];
    }
  }
}
