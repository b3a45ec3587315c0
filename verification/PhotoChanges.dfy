// What the edits of a photo do, said of the photo before and after: the one thing each changes and everything else as
// it was; which edits are refused and why; and what several of them come to.
module PhotoChanges {
  import opened Wrappers
  import opened Text
  import opened Vocabulary
  import opened VocabularyEdits
  import opened VocabularyChanges
  import opened PhotoMetadata
  import opened PlaceNames
  import opened Journal
  import opened PhotoEdits
  import opened Sequences

  // ---------------------------------------------------------------- what is compared

  /** What undoing restores is the rating, the flag, the label, the keywords, the text of every field and the record of
      what was filled: two photos are compared as one exactly when they say the same in all of these. */
  lemma ComparedIsWhatIsSaid(a: Metadata, b: Metadata)
    requires Normal(a) && Normal(b)
    ensures ViewOf(a) == ViewOf(b) <==>
            && a.rating == b.rating && a.flag == b.flag && a.colour == b.colour
            && a.keywordIds == b.keywordIds && a.placeFilled == b.placeFilled
            && forall f: MetadataField :: Get(a, f) == Get(b, f)
  {
    forall f: MetadataField
      ensures Get(a, f) == GetView(ViewOf(a), f) && Get(b, f) == GetView(ViewOf(b), f)
    {
      GetIsGetView(a, f);
      GetIsGetView(b, f);
    }
    NormalHasNormalView(a);
    NormalHasNormalView(b);
    if forall f: MetadataField :: Get(a, f) == Get(b, f) {
      SameTexts(ViewOf(a), ViewOf(b));
    }
  }

  lemma SameTexts(a: PhotoView, b: PhotoView)
    requires NormalView(a) && NormalView(b) && forall f: MetadataField :: GetView(a, f) == GetView(b, f)
    ensures a.lines == b.lines && a.names == b.names && a.custom == b.custom
  {
    forall line: LineField ensures line in a.lines <==> line in b.lines
      ensures line in a.lines ==> a.lines[line] == b.lines[line]
    {
      assert GetView(a, Line(line)) == GetView(b, Line(line));
    }
    forall list: NamesField ensures list in a.names <==> list in b.names
      ensures list in a.names ==> a.names[list] == b.names[list]
    {
      assert GetView(a, List(list)) == GetView(b, List(list));
      NamesOfJoin(if list in a.names then a.names[list] else []);
      NamesOfJoin(if list in b.names then b.names[list] else []);
    }
    forall name: string ensures name in a.custom <==> name in b.custom
      ensures name in a.custom ==> a.custom[name] == b.custom[name]
    {
      assert GetView(a, Custom(name)) == GetView(b, Custom(name));
    }
  }

  // ---------------------------------------------------------------- a field written by a person

  /** The custom field was taken from its place, if it had one, and is last with its new text, if that is not empty. */
  predicate LastWith(before: seq<CustomField>, after: seq<CustomField>, name: string, value: string) {
    var last := if value == "" then [] else [CustomField(name, value)];
    || ((forall i | 0 <= i < |before| :: before[i].name != name) && after == before + last)
    || exists i :: 0 <= i < |before| && before[i].name == name && after == before[..i] + before[i + 1..] + last
  }

  /** Something else than the place is recorded. */
  predicate RecordsMore(filled: Option<PlaceFilled>, place: PlaceField) {
    filled.Some? && (filled.value.extra != [] || exists p: PlaceField :: p != place && Listed(filled, p).Some?)
  }

  /** The record after a person decided a place: not of that field any more, or as one left empty; as it was of the
      others, and gone when nothing is left to record. */
  predicate RecordReleased(before: Option<PlaceFilled>, after: Option<PlaceFilled>, place: PlaceField, value: string) {
    && (forall p: PlaceField ::
          Listed(after, p) == if p != place then Listed(before, p) else if value != "" then None else Some(""))
    && (after.Some? <==> value == "" || RecordsMore(before, place))
    && (after.Some? ==>
          && after.value.extra == ExtraOf(before)
          && (RecordsMore(before, place) ==>
                after.value.latitude == before.value.latitude && after.value.longitude == before.value.longitude))
  }

  /** A photo before and after a person wrote a field: the field says what was written, every other field what it said,
      and only a place field that got a text, or lost one, changes the record. */
  ghost predicate FieldWritten(before: Metadata, after: Metadata, field: MetadataField, value: string) {
    && Get(after, field) == (if field.List? then Join(Names(value), '\n') else value)
    && (forall f: MetadataField :: f != field ==> Get(after, f) == Get(before, f))
    && (if field.Custom? && Get(before, field) != value
        then LastWith(before.custom, after.custom, field.name, value)
        else after.custom == before.custom)
    && (if field.Line? && field.line.Place? && (value != "" || Get(before, field) != "")
        then RecordReleased(before.placeFilled, after.placeFilled, field.line.place, value)
        else after.placeFilled == before.placeFilled)
    && Normal(after)
    && after == before.(lines := after.lines, names := after.names, custom := after.custom,
                        placeFilled := after.placeFilled)
  }

  lemma {:induction false} WithoutOne(custom: seq<CustomField>, name: string) returns (at: Option<nat>)
    requires NormalCustom(custom)
    ensures at.None? ==>
              (forall i | 0 <= i < |custom| :: custom[i].name != name) && WithoutCustom(custom, name) == custom
    ensures at.Some? ==> at.value < |custom| && custom[at.value].name == name
                         && WithoutCustom(custom, name) == custom[..at.value] + custom[at.value + 1..]
  {
    if custom == [] {
      at := None;
    } else {
      var first, rest := custom[0], custom[1..];
      assert custom == [first] + rest;
      at := WithoutOne(rest, name);
      assert at.Some? ==> custom[at.value + 1].name == name;
      if first.name == name {
        assert at.None?;
        at := Some(0);
      } else if at.Some? {
        assert custom[..at.value + 1] == [first] + rest[..at.value];
        at := Some(at.value + 1);
      } else {
        forall i | 0 <= i < |custom| ensures custom[i].name != name {
          if i > 0 {
            assert custom[i] == rest[i - 1];
          }
        }
      }
    }
  }

  lemma SetWrites(meta: Metadata, field: MetadataField, value: string)
    requires Normal(meta)
    ensures var after := Set(meta, field, value);
            && Normal(after)
            && Get(after, field) == (if field.List? then Join(Names(value), '\n') else value)
            && (forall f: MetadataField :: f != field ==> Get(after, f) == Get(meta, f))
            && after == meta.(lines := after.lines, names := after.names, custom := after.custom)
            && (!field.Custom? ==> after.custom == meta.custom)
            && (field.Custom? ==> LastWith(meta.custom, after.custom, field.name, value))
  {
    hide Normal, Names, Join, CustomMap, WithoutCustom, NonEmptyLists, LastWith;
    var after := Set(meta, field, value);
    SetIsSetView(meta, field, value);
    forall f: MetadataField
      ensures Get(after, f) == GetView(SetView(ViewOf(meta), field, value), f)
      ensures Get(meta, f) == GetView(ViewOf(meta), f)
    {
      GetIsGetView(after, f);
      GetIsGetView(meta, f);
    }
    ReadsBack(ViewOf(meta), field, value);
    if field.Custom? {
      SetIsLast(meta, field.name, value);
    }
  }

  lemma ReadsBack(view: PhotoView, field: MetadataField, value: string)
    ensures var after := SetView(view, field, value);
            && GetView(after, field) == (if field.List? then Join(Names(value), '\n') else value)
            && forall f: MetadataField :: f != field ==> GetView(after, f) == GetView(view, f)
  {
    hide Names;
  }

  lemma SetIsLast(meta: Metadata, name: string, value: string)
    requires Normal(meta)
    ensures LastWith(meta.custom, Set(meta, Custom(name), value).custom, name, value)
  {
    var at := WithoutOne(meta.custom, name);
    hide WithoutCustom;
  }

  lemma SameReadsBack(meta: Metadata, field: MetadataField)
    requires Normal(meta)
    ensures Get(meta, field) == if field.List? then Join(Names(Get(meta, field)), '\n') else Get(meta, field)
  {
    if field.List? {
      NamesOfJoin(NamesOf(meta, field.list));
    }
  }

  lemma NothingElseRecorded(record: PlaceFilled, place: PlaceField)
    ensures RecordIsNothing(PlaceNames.Record(record, place, None)) <==> !RecordsMore(Some(record), place)
  {
    var left := PlaceNames.Record(record, place, None);
    RecordHolds(left);
    forall p: PlaceField
      ensures Recorded(left, p) == if p == place then None else Listed(Some(record), p)
    {
    }
  }

  lemma ReleasedIs(filled: Option<PlaceFilled>, field: MetadataField, before: string, value: string)
    requires field.Line? && field.line.Place? && (value != "" || before != "")
    ensures RecordReleased(filled, Released(filled, field, before, value), field.line.place, value)
  {
    var place := field.line.place;
    forall p: PlaceField
      ensures Listed(Released(filled, field, before, value), p) ==
              if p != place then Listed(filled, p) else if value != "" then None else Some("")
    {
      ReleasedAt(filled, field, before, value, p);
    }
    if filled.Some? {
      NothingElseRecorded(filled.value, place);
    }
    hide Listed, RecordsMore, RecordIsNothing;
  }

  lemma PersonDoes(meta: Metadata, field: MetadataField, value: string)
    requires Normal(meta)
    ensures FieldWritten(meta, PersonWrites(meta, field, value), field, value)
  {
    hide Normal, Set, LastWith, RecordReleased, Names, Join, Released;
    var before := Get(meta, field);
    SameReadsBack(meta, field);
    SetWrites(meta, field, value);
    var wrote := if before != value then Set(meta, field, value) else meta;
    RecordIsApart(wrote, Released(wrote.placeFilled, field, before, value));
    if field.Line? && field.line.Place? && (value != "" || before != "") {
      ReleasedIs(meta.placeFilled, field, before, value);
    } else {
      ReleasedOnlyPlaces(meta.placeFilled, field, before, value);
    }
  }

  lemma RecordIsApart(meta: Metadata, filled: Option<PlaceFilled>)
    ensures Normal(meta) ==> Normal(meta.(placeFilled := filled))
    ensures forall f: MetadataField :: Get(meta.(placeFilled := filled), f) == Get(meta, f)
  {
  }

  lemma ReleasedOnlyPlaces(filled: Option<PlaceFilled>, field: MetadataField, before: string, value: string)
    requires !(field.Line? && field.line.Place? && (value != "" || before != ""))
    ensures Released(filled, field, before, value) == filled
  {
  }

  // ---------------------------------------------------------------- the keywords

  /** The keyword's first place and the path snapshot at it are taken out, the others stay in their order. */
  predicate TakesOne(before: KeywordSet, after: KeywordSet, keyword: KeywordId) {
    exists i ::
      && 0 <= i < |before.ids| && before.ids[i] == keyword && keyword !in before.ids[..i]
      && after.ids == before.ids[..i] + before.ids[i + 1..]
      && after.paths == if i < |before.paths| then before.paths[..i] + before.paths[i + 1..] else before.paths
  }

  /** Of the keywords exactly those that are not `gone` stay, in their order, and the path snapshots at their places. */
  ghost predicate TakesAll(before: KeywordSet, after: KeywordSet, gone: seq<KeywordId>) {
    exists idsAt, pathsAt ::
      && Picks(before.ids, after.ids, idsAt) && Picks(before.paths, after.paths, pathsAt)
      && (forall i | 0 <= i < |before.ids| :: i in idsAt <==> before.ids[i] !in gone)
      && forall i | 0 <= i < |before.paths| :: i in pathsAt <==> i >= |before.ids| || before.ids[i] !in gone
  }

  lemma {:induction false} FirstPlace(ids: seq<KeywordId>, keyword: KeywordId)
    requires keyword in ids
    ensures keyword !in ids[..PositionOf(ids, keyword)]
  {
    if ids[0] != keyword {
      FirstPlace(ids[1..], keyword);
      assert ids[..1 + PositionOf(ids[1..], keyword)] == [ids[0]] + ids[1..][..PositionOf(ids[1..], keyword)];
    }
  }

  /** The snapshots that stay, looking at the identifiers and the snapshots side by side. */
  function PathsLeft(ids: seq<KeywordId>, paths: seq<string>, gone: seq<KeywordId>): seq<string> {
    if ids == [] || paths == [] then paths
    else (if ids[0] in gone then [] else [paths[0]]) + PathsLeft(ids[1..], paths[1..], gone)
  }

  lemma {:induction false} DropLeavesPaths(keywords: KeywordSet, i: nat, gone: seq<KeywordId>)
    requires i <= |keywords.ids|
    ensures DropFrom(keywords, i, gone).paths ==
            if i <= |keywords.paths|
            then keywords.paths[..i] + PathsLeft(keywords.ids[i..], keywords.paths[i..], gone) else keywords.paths
    decreases |keywords.ids| - i
  {
    var ids, paths := keywords.ids, keywords.paths;
    if i < |ids| {
      assert ids[i..][0] == ids[i] && ids[i..][1..] == ids[i + 1..];
      if ids[i] in gone {
        var left := RemoveAt(keywords, i);
        assert left.ids[i..] == ids[i + 1..];
        DropLeavesPaths(left, i, gone);
        if i < |paths| {
          assert left.paths[..i] == paths[..i] && left.paths[i..] == paths[i..][1..];
          assert PathsLeft(ids[i..], paths[i..], gone) == PathsLeft(left.ids[i..], left.paths[i..], gone);
        }
      } else {
        DropLeavesPaths(keywords, i + 1, gone);
        if i < |paths| {
          assert paths[i..][1..] == paths[i + 1..] && paths[..i + 1] == paths[..i] + [paths[i]];
        }
      }
    }
  }

  lemma {:induction false} PathsLeftPicks(ids: seq<KeywordId>, paths: seq<string>, gone: seq<KeywordId>)
    returns (at: seq<nat>)
    ensures Picks(paths, PathsLeft(ids, paths, gone), at)
    ensures forall i | 0 <= i < |paths| :: i in at <==> i >= |ids| || ids[i] !in gone
  {
    if ids == [] || paths == [] {
      PicksAll(paths);
      at := Places(|paths|);
    } else {
      var rest := PathsLeftPicks(ids[1..], paths[1..], gone);
      PicksBehind(paths[0], paths[1..], PathsLeft(ids[1..], paths[1..], gone), rest);
      assert [paths[0]] + paths[1..] == paths;
      at := (if ids[0] in gone then [] else [0]) + Shift(rest);
      forall i | 0 <= i < |paths| ensures i in at <==> i >= |ids| || ids[i] !in gone {
        ShiftHolds(rest, i);
        if i > 0 {
          assert i - 1 in rest <==> i - 1 >= |ids[1..]| || ids[1..][i - 1] !in gone;
        }
      }
    }
  }

  lemma DropTakesAll(keywords: KeywordSet, gone: seq<KeywordId>)
    ensures TakesAll(keywords, DropFrom(keywords, 0, gone), gone)
  {
    hide Picks, DropFrom, PathsLeft, Filter;
    DropLeavesTheOthers(keywords, 0, gone);
    DropLeavesPaths(keywords, 0, gone);
    assert keywords.ids[0..] == keywords.ids && keywords.paths[0..] == keywords.paths;
    assert DropFrom(keywords, 0, gone).ids == Filter(keywords.ids, Outside(gone));
    assert DropFrom(keywords, 0, gone).paths == PathsLeft(keywords.ids, keywords.paths, gone);
    var pathsAt := PathsLeftPicks(keywords.ids, keywords.paths, gone);
    var idsAt := FilterPicks(keywords.ids, Outside(gone));
  }

  /** A photo before and after it lost some keywords: they are gone, with their path snapshots, and nothing else. */
  ghost predicate SweptOff(before: Metadata, after: Metadata, gone: seq<KeywordId>) {
    Swept(before, after, gone) && TakesAll(KeywordsOf(before), KeywordsOf(after), gone)
  }

  // ---------------------------------------------------------------- one edit

  /** A photo before and after an edit: what was asked for, and nothing else. */
  ghost predicate PhotoEdited(tree: Tree, before: Metadata, after: Metadata, edit: Edit)
    requires IsPhotoEdit(edit)
  {
    match edit
    case SetRating(_, rating) => after == before.(rating := Some(rating))
    case SetFlag(_, flag) => after == before.(flag := flag)
    case SetLabel(_, colour) => after == before.(colour := colour)
    case SetMetadataField(_, field, value) => FieldWritten(before, after, field, value)
    case FillPlaceNames(_, fill) => FillsPhoto(before, after, fill)
    case AddKeyword(_, keyword) =>
      if keyword in before.keywordIds then after == before
      else keyword in tree
           && after == before.(keywordIds := before.keywordIds + [keyword],
                               keywordPaths := before.keywordPaths + [PathOf(tree, keyword)])
    case RemoveKeyword(_, keyword) =>
      if keyword in before.keywordIds
      then TakesOne(KeywordsOf(before), KeywordsOf(after), keyword) && OnlyKeywords(before, after)
      else after == before
    case RemoveKeywords(_, keywords) =>
      TakesAll(KeywordsOf(before), KeywordsOf(after), keywords) && OnlyKeywords(before, after)
  }

  predicate OnlyKeywords(before: Metadata, after: Metadata) {
    after == before.(keywordIds := after.keywordIds, keywordPaths := after.keywordPaths)
  }

  /** The photo already was as asked, which is not worth a step. */
  predicate AsAsked(before: Metadata, after: Metadata, edit: Edit)
    requires IsPhotoEdit(edit)
  {
    match edit
    case SetRating(_, rating) => before.rating == Some(rating)
    case SetFlag(_, flag) => before.flag == flag
    case SetLabel(_, colour) => before.colour == colour
    case SetMetadataField(_, field, value) =>
      Get(before, field) == value && after.placeFilled == before.placeFilled
    case FillPlaceNames(_, _) => after == before
    case AddKeyword(_, keyword) => keyword in before.keywordIds
    case RemoveKeyword(_, keyword) => keyword !in before.keywordIds
    case RemoveKeywords(_, keywords) => forall k | k in before.keywordIds :: k !in keywords
  }

  /** Why an edit is refused, the first reason that holds; none when it is made. */
  predicate EditRefused(desk: Desk, edit: Edit, why: Option<EditError>, fold: string -> string) {
    if edit.Other? then why == Some(InvalidCommand)
    else if edit.CreateKeyword? then
      && (why.Some? ==> why.value.KeywordRefused?)
      && CreateRefused(desk.tree, edit.name, edit.parent, edit.id, if why.Some? then Some(why.value.why) else None,
                       fold)
    else if edit.photo !in desk.photos then why == Some(PhotoNotFound)
    else if edit.AddKeyword? && edit.keyword !in desk.photos[edit.photo].keywordIds && edit.keyword !in desk.tree
    then why == Some(KeywordRefused(KeywordNotFound))
    else why == None
  }

  /** The photos and the vocabulary before and after an edit: the one photo, or the one keyword made. */
  ghost predicate EditDone(before: Desk, after: Desk, edit: Edit) {
    if edit.Other? then false
    else if edit.CreateKeyword? then
      after == before.(tree := before.tree[edit.id := EntryMade(edit.name, edit.parent, edit.id)])
    else
      && edit.photo in before.photos && edit.photo in after.photos
      && after == before.(photos := before.photos[edit.photo := after.photos[edit.photo]])
      && PhotoEdited(before.tree, before.photos[edit.photo], after.photos[edit.photo], edit)
  }

  lemma RefusingSays(desk: Desk, edit: Edit, fold: string -> string)
    ensures EditRefused(desk, edit, Refusing(desk, edit, fold), fold)
  {
    hide CreateRefused, Overlay, PlanCreate;
    if edit.CreateKeyword? {
      CreateDoes(desk.tree, edit.name, edit.parent, edit.id, fold);
    }
  }

  lemma KeywordsEdited(tree: Tree, meta: Metadata, edit: Edit, path: string)
    requires edit.AddKeyword? || edit.RemoveKeyword? || edit.RemoveKeywords?
    requires edit.AddKeyword? && edit.keyword !in meta.keywordIds ==>
               edit.keyword in tree && path == PathOf(tree, edit.keyword)
    ensures PhotoEdited(tree, meta, Edited(meta, edit, path), edit)
  {
    hide DropFrom, PathOf, TakesAll;
    if edit.RemoveKeyword? && edit.keyword in meta.keywordIds {
      FirstPlace(meta.keywordIds, edit.keyword);
    }
    if edit.RemoveKeywords? {
      DropTakesAll(KeywordsOf(meta), edit.keywords);
      if forall k | k in meta.keywordIds :: k !in edit.keywords {
        AllStay(KeywordsOf(meta), edit.keywords);
      }
    }
  }

  lemma AllStay(keywords: KeywordSet, gone: seq<KeywordId>)
    requires forall k | k in keywords.ids :: k !in gone
    ensures TakesAll(keywords, keywords, gone)
  {
    PicksAll(keywords.ids);
    PicksAll(keywords.paths);
    assert Picks(keywords.ids, keywords.ids, Places(|keywords.ids|))
           && Picks(keywords.paths, keywords.paths, Places(|keywords.paths|));
  }

  lemma SweepTakesOff(tree: Tree, meta: Metadata, edit: Edit)
    requires edit.RemoveKeywords?
    ensures SweptOff(meta, Edited(meta, edit, ""), edit.keywords)
  {
    hide TakesAll, Swept;
    SweptPhoto(meta, edit);
    KeywordsEdited(tree, meta, edit, "");
  }

  /** **An edit makes of a photo what was asked for, and nothing else.** */
  lemma EditMakes(tree: Tree, meta: Metadata, edit: Edit, path: string)
    requires IsPhotoEdit(edit) && Normal(meta)
    requires edit.AddKeyword? && edit.keyword !in meta.keywordIds ==>
               edit.keyword in tree && path == PathOf(tree, edit.keyword)
    ensures PhotoEdited(tree, meta, Edited(meta, edit, path), edit)
    ensures ChangeOf(meta, edit, path).None? <==> AsAsked(meta, Edited(meta, edit, path), edit)
  {
    hide PathOf, FilledPlace, PersonWrites, PutPlaceState, DropFrom, FillsPhoto, FieldWritten, TakesAll, TakesOne,
      PlaceStateOf, Normal, PositionOf;
    match edit
    case SetMetadataField(_, field, value) => PersonDoes(meta, field, value);
    case FillPlaceNames(_, fill) =>
      FillDoes(meta, fill);
      PutOnlyWhenOther(meta, FilledPlace(PlaceStateOf(meta), fill));
      PutThenRead(meta, FilledPlace(PlaceStateOf(meta), fill));
    case AddKeyword(_, _) => KeywordsEdited(tree, meta, edit, path);
    case RemoveKeyword(_, _) => KeywordsEdited(tree, meta, edit, path);
    case RemoveKeywords(_, _) => KeywordsEdited(tree, meta, edit, path);
    case _ =>
  }

  /** **An edit that is not refused is done**, on the photos and the vocabulary. */
  lemma ApplyDoes(desk: Desk, edit: Edit, fold: string -> string)
    requires Refusing(desk, edit, fold).None?
    requires IsPhotoEdit(edit) ==> Normal(desk.photos[edit.photo])
    ensures EditDone(desk, Apply(desk, edit, fold), edit)
  {
    hide Edited, PathOf, PhotoEdited, Normal, PlanCreate, Overlay;
    if edit.CreateKeyword? {
      CreateDoes(desk.tree, edit.name, edit.parent, edit.id, fold);
    } else if IsPhotoEdit(edit) {
      EditMakes(desk.tree, desk.photos[edit.photo], edit, PathFor(desk.tree, edit));
    }
  }

  /** What an edit is answered with: it was done, and written; or it was refused, or could not be written, and nothing
      changed. */
  ghost predicate EditAnswered(before: Desk, after: Desk, edit: Edit, failed: Option<EditError>, writes: bool,
                               fold: string -> string)
  {
    match failed
    case None => writes && EditRefused(before, edit, None, fold) && EditDone(before, after, edit)
    case Some(WriteFailed) => !writes && EditRefused(before, edit, None, fold) && after == before
    case Some(_) => EditRefused(before, edit, failed, fold) && after == before
  }

  /** When an edit of a photo is worth a step. */
  ghost predicate WorthAStep(before: Desk, after: Desk, edit: Edit, change: Option<Change>) {
    IsPhotoEdit(edit) && edit.photo in before.photos && edit.photo in after.photos ==>
      (change.None? <==> AsAsked(before.photos[edit.photo], after.photos[edit.photo], edit))
  }

  lemma AnsweredRight(desk: Desk, after: Desk, edit: Edit, writes: bool, fold: string -> string)
    requires IsPhotoEdit(edit) && edit.photo in desk.photos ==> Normal(desk.photos[edit.photo])
    ensures var why := Refusing(desk, edit, fold);
            if why.Some? then EditAnswered(desk, desk, edit, why, writes, fold)
            else EditAnswered(desk, if writes then Apply(desk, edit, fold) else desk, edit,
                              if writes then None else Some(WriteFailed), writes, fold)
  {
    RefusingSays(desk, edit, fold);
    hide EditDone, EditRefused, Apply;
    if Refusing(desk, edit, fold).None? {
      ApplyDoes(desk, edit, fold);
    }
  }

  lemma ChangedRight(desk: Desk, edit: Edit, fold: string -> string)
    requires IsPhotoEdit(edit) && Refusing(desk, edit, fold).None? && Normal(desk.photos[edit.photo])
    ensures WorthAStep(desk, Apply(desk, edit, fold), edit,
                       ChangeOf(desk.photos[edit.photo], edit, PathFor(desk.tree, edit)))
  {
    hide Edited, ChangeOf, PathOf, PhotoEdited, AsAsked, Normal;
    EditMakes(desk.tree, desk.photos[edit.photo], edit, PathFor(desk.tree, edit));
  }

  // ---------------------------------------------------------------- several edits

  /** The photos and the vocabulary after each of several edits, each done and none refused. */
  ghost predicate EditsDone(desks: seq<Desk>, edits: seq<Edit>, fold: string -> string) {
    && |desks| == |edits| + 1
    && forall n | 0 <= n < |edits| ::
         EditDone(desks[n], desks[n + 1], edits[n]) && EditRefused(desks[n], edits[n], None, fold)
  }

  /** Several edits lead from the one to the other, each done where the ones before it left off. */
  ghost predicate AllDone(before: Desk, after: Desk, edits: seq<Edit>, fold: string -> string) {
    exists desks :: EditsDone(desks, edits, fold) && desks[0] == before && desks[|edits|] == after
  }

  lemma NoneDone(desk: Desk, fold: string -> string)
    ensures AllDone(desk, desk, [], fold)
  {
    assert EditsDone([desk], [], fold);
  }

  lemma OneDoneMore(before: Desk, mid: Desk, after: Desk, edits: seq<Edit>, edit: Edit, fold: string -> string)
    requires AllDone(before, mid, edits, fold) && EditDone(mid, after, edit) && EditRefused(mid, edit, None, fold)
    ensures AllDone(before, after, edits + [edit], fold)
  {
    hide EditDone, EditRefused;
    var desks :| EditsDone(desks, edits, fold) && desks[0] == before && desks[|edits|] == mid;
    var more := desks + [after];
    forall n | 0 <= n < |edits + [edit]|
      ensures EditDone(more[n], more[n + 1], (edits + [edit])[n])
      ensures EditRefused(more[n], (edits + [edit])[n], None, fold)
    {
      if n < |edits| {
        assert more[n] == desks[n] && more[n + 1] == desks[n + 1] && (edits + [edit])[n] == edits[n];
      }
    }
    assert EditsDone(more, edits + [edit], fold);
  }
}
