// The edits of one photo: what each makes of its metadata and the change it records, and that the change says exactly
// what was done, both ways.
module PhotoEdits {
  import opened Wrappers
  import opened Vocabulary
  import opened VocabularyEdits
  import opened KeywordIndex
  import opened PhotoMetadata
  import opened PlaceNames
  import opened Journal
  import opened Worlds

  /** The commands that can stand in a batch. */
  datatype Edit =
    | SetRating(photo: PhotoId, rating: nat)
    | SetFlag(photo: PhotoId, flag: Option<Flag>)
    | SetLabel(photo: PhotoId, colour: Option<string>)
    | SetMetadataField(photo: PhotoId, field: MetadataField, value: string)
    | FillPlaceNames(photo: PhotoId, fill: PlaceFill)
    | AddKeyword(photo: PhotoId, keyword: KeywordId)
    | RemoveKeyword(photo: PhotoId, keyword: KeywordId)
    | RemoveKeywords(photo: PhotoId, keywords: seq<KeywordId>)
    | CreateKeyword(name: string, parent: Option<KeywordId>, id: KeywordId)
    | Other

  /** Above this many items a command runs as a background job. */
  const BACKGROUND_THRESHOLD: nat := 200

  predicate IsPhotoEdit(edit: Edit) { !edit.CreateKeyword? && !edit.Other? }

  function KeywordsOf(meta: Metadata): KeywordSet { KeywordSet(meta.keywordIds, meta.keywordPaths) }

  function WithKeywords(meta: Metadata, keywords: KeywordSet): Metadata {
    meta.(keywordIds := keywords.ids, keywordPaths := keywords.paths)
  }

  /** The identifier and the path at `i` taken out; a path that is not there is not missed. */
  function RemoveAt(keywords: KeywordSet, i: nat): KeywordSet
    requires i < |keywords.ids|
  {
    KeywordSet(keywords.ids[..i] + keywords.ids[i + 1..],
               if i < |keywords.paths| then keywords.paths[..i] + keywords.paths[i + 1..] else keywords.paths)
  }

  function Outside(gone: seq<KeywordId>): KeywordId -> bool { k => k !in gone }

  /** The keywords without the ones that are `gone`, looking from position `i`. */
  function DropFrom(keywords: KeywordSet, i: nat, gone: seq<KeywordId>): KeywordSet
    requires i <= |keywords.ids|
    decreases |keywords.ids| - i
  {
    if i == |keywords.ids| then keywords
    else if keywords.ids[i] in gone then DropFrom(RemoveAt(keywords, i), i, gone)
    else DropFrom(keywords, i + 1, gone)
  }

  /** Takes the keywords out one by one, in place. */
  method DropKeywords(keywords: KeywordSet, gone: seq<KeywordId>) returns (left: KeywordSet)
    ensures left == DropFrom(keywords, 0, gone)
  {
    left := keywords;
    var i := 0;
    while i < |left.ids|
      invariant i <= |left.ids|
      invariant DropFrom(left, i, gone) == DropFrom(keywords, 0, gone)
      decreases |left.ids| - i
    {
      if left.ids[i] in gone {
        left := RemoveAt(left, i);
      } else {
        i := i + 1;
      }
    }
  }

  /** What dropping leaves is exactly the keywords that are not gone, in their order. */
  lemma {:induction false} DropLeavesTheOthers(keywords: KeywordSet, i: nat, gone: seq<KeywordId>)
    requires i <= |keywords.ids|
    ensures DropFrom(keywords, i, gone).ids == keywords.ids[..i] + Filter(keywords.ids[i..], Outside(gone))
    decreases |keywords.ids| - i
  {
    var ids := keywords.ids;
    if i == |ids| {
      assert ids[i..] == [] && ids[..i] + [] == ids;
    } else {
      FilterHead(ids, i, gone);
      RemoveAtSlices(ids, i);
      hide Filter, Outside;
      if ids[i] in gone {
        DropLeavesTheOthers(RemoveAt(keywords, i), i, gone);
      } else {
        DropLeavesTheOthers(keywords, i + 1, gone);
        Regroup(ids[..i], ids[i], Filter(ids[i + 1..], Outside(gone)));
      }
    }
  }

  lemma Regroup(a: seq<KeywordId>, x: KeywordId, b: seq<KeywordId>)
    ensures a + [x] + b == a + ([x] + b)
  {
  }

  lemma FilterHead(ids: seq<KeywordId>, i: nat, gone: seq<KeywordId>)
    requires i < |ids|
    ensures Filter(ids[i..], Outside(gone)) ==
            if ids[i] in gone then Filter(ids[i + 1..], Outside(gone))
            else [ids[i]] + Filter(ids[i + 1..], Outside(gone))
  {
    hide Filter;
    FilterFirst(ids[i..], Outside(gone));
    RemoveAtSlices(ids, i);
    assert [] + Filter(ids[i + 1..], Outside(gone)) == Filter(ids[i + 1..], Outside(gone));
  }

  lemma RemoveAtSlices(ids: seq<KeywordId>, i: nat)
    requires i < |ids|
    ensures ids[i..][0] == ids[i] && ids[i..][1..] == ids[i + 1..]
    ensures ids[..i + 1] == ids[..i] + [ids[i]]
    ensures (ids[..i] + ids[i + 1..])[..i] == ids[..i] && (ids[..i] + ids[i + 1..])[i..] == ids[i + 1..]
  {
  }

  lemma {:induction false} FilterFirst<T>(items: seq<T>, keep: T -> bool)
    requires items != []
    ensures Filter(items, keep) == (if keep(items[0]) then [items[0]] else []) + Filter(items[1..], keep)
  {
    if |items| > 1 {
      FilterFirst(items[..|items| - 1], keep);
      assert items[..|items| - 1][1..] == items[1..][..|items| - 2];
    } else {
      assert items[..0] == [] && items[1..] == [];
    }
  }

  /** The first place of a keyword in a list. */
  function PositionOf(ids: seq<KeywordId>, keyword: KeywordId): (i: nat)
    requires keyword in ids
    ensures i < |ids| && ids[i] == keyword
  {
    if ids[0] == keyword then 0 else 1 + PositionOf(ids[1..], keyword)
  }

  // ---------------------------------------------------------------- what an edit makes

  /** The metadata after an edit; `path` is the printed path of the keyword it adds. */
  function Edited(meta: Metadata, edit: Edit, path: string): Metadata
    requires IsPhotoEdit(edit)
  {
    match edit
    case SetRating(_, rating) => meta.(rating := Some(rating))
    case SetFlag(_, flag) => meta.(flag := flag)
    case SetLabel(_, colour) => meta.(colour := colour)
    case SetMetadataField(_, field, value) => PersonWrites(meta, field, value)
    case FillPlaceNames(_, fill) => PutPlaceState(meta, FilledPlace(PlaceStateOf(meta), fill))
    case AddKeyword(_, keyword) =>
      if keyword in meta.keywordIds then meta
      else meta.(keywordIds := meta.keywordIds + [keyword], keywordPaths := meta.keywordPaths + [path])
    case RemoveKeyword(_, keyword) =>
      if keyword in meta.keywordIds
      then WithKeywords(meta, RemoveAt(KeywordsOf(meta), PositionOf(meta.keywordIds, keyword)))
      else meta
    case RemoveKeywords(_, keywords) =>
      if exists k :: k in meta.keywordIds && k in keywords
      then WithKeywords(meta, DropFrom(KeywordsOf(meta), 0, keywords))
      else meta
  }

  /** The change an edit records: none when the photo already was as asked. */
  function ChangeOf(meta: Metadata, edit: Edit, path: string): Option<Change>
    requires IsPhotoEdit(edit)
  {
    var after := Edited(meta, edit, path);
    match edit
    case SetRating(photo, rating) =>
      if meta.rating != Some(rating) then Some(RatingChange(photo, meta.rating, Some(rating))) else None
    case SetFlag(photo, flag) => if meta.flag != flag then Some(FlagChange(photo, meta.flag, flag)) else None
    case SetLabel(photo, colour) => if meta.colour != colour then Some(LabelChange(photo, meta.colour, colour))
      else None
    case SetMetadataField(photo, field, value) =>
      var before := Get(meta, field);
      var filled := if after.placeFilled != meta.placeFilled then Some((meta.placeFilled, after.placeFilled)) else None;
      if before != value || filled.Some? then Some(MetadataChange(photo, field, before, value, filled)) else None
    case FillPlaceNames(photo, fill) =>
      if PlaceStateOf(after) != PlaceStateOf(meta)
        then Some(PlaceChange(photo, PlaceStateOf(meta), PlaceStateOf(after)))
      else None
    case AddKeyword(photo, keyword) =>
      if keyword in meta.keywordIds then None else Some(KeywordsChange(photo, KeywordsOf(meta), KeywordsOf(after)))
    case RemoveKeyword(photo, keyword) =>
      if keyword in meta.keywordIds then Some(KeywordsChange(photo, KeywordsOf(meta), KeywordsOf(after))) else None
    case RemoveKeywords(photo, keywords) =>
      if exists k :: k in meta.keywordIds && k in keywords
      then Some(KeywordsChange(photo, KeywordsOf(meta), KeywordsOf(after))) else None
  }

  /** What an edit and its change promise: metadata that reads back, and a change that leads from the state before to
      the state after and back, or no change when there is nothing to compare. */
  predicate Records(meta: Metadata, after: Metadata, change: Option<Change>) {
    && Normal(after)
    && match change
       case None => ViewOf(after) == ViewOf(meta)
       case Some(c) =>
         && ApplyToView(c, ViewOf(meta), Redo) == ViewOf(after)
         && ApplyToView(c, ViewOf(after), Undo) == ViewOf(meta)
  }

  lemma WriteRecords(meta: Metadata, edit: Edit)
    requires Normal(meta) && edit.SetMetadataField?
    ensures Records(meta, Edited(meta, edit, ""), ChangeOf(meta, edit, ""))
  {
    var before := Get(meta, edit.field);
    GetIsGetView(meta, edit.field);
    NormalHasNormalView(meta);
    SetIsSetView(meta, edit.field, edit.value);
    TextViewRestores(ViewOf(meta), edit.field, edit.value);
    if before == edit.value {
      SetSame(ViewOf(meta), edit.field);
    }
  }

  /** Setting a field to the text it has changes nothing. */
  lemma SetSame(view: PhotoView, field: MetadataField)
    requires NormalView(view)
    ensures SetView(view, field, GetView(view, field)) == view
  {
    TextViewRestores(view, field, GetView(view, field));
    SetTwice(view, field, GetView(view, field));
  }

  lemma SetTwice(view: PhotoView, field: MetadataField, value: string)
    ensures SetView(SetView(view, field, value), field, value) == SetView(view, field, value)
  {
  }

  lemma FillRecords(meta: Metadata, edit: Edit)
    requires Normal(meta) && edit.FillPlaceNames?
    ensures Records(meta, Edited(meta, edit, ""), ChangeOf(meta, edit, ""))
  {
    FilledTextsNormal(PlaceStateOf(meta), edit.fill);
    FillMakes(meta, edit);
    hide *;
    PutRecords(meta, edit.photo, FilledPlace(PlaceStateOf(meta), edit.fill));
  }

  lemma FillMakes(meta: Metadata, edit: Edit)
    requires Normal(meta) && edit.FillPlaceNames?
    ensures var filled := FilledPlace(PlaceStateOf(meta), edit.fill);
            && Edited(meta, edit, "") == PutPlaceState(meta, filled)
            && ChangeOf(meta, edit, "") ==
               if filled == PlaceStateOf(meta) then None else Some(PlaceChange(edit.photo, PlaceStateOf(meta), filled))
  {
    FilledTextsNormal(PlaceStateOf(meta), edit.fill);
    hide FilledPlace, PlaceStateOf, PutPlaceState, Normal;
    PutThenRead(meta, FilledPlace(PlaceStateOf(meta), edit.fill));
  }

  lemma PutRecords(meta: Metadata, photo: PhotoId, filled: PlaceState)
    requires Normal(meta) && forall p | p in filled.texts :: filled.texts[p] != ""
    ensures Records(meta, PutPlaceState(meta, filled),
                    if filled == PlaceStateOf(meta) then None else Some(PlaceChange(photo, PlaceStateOf(meta), filled)))
  {
    hide PutTexts, PlaceTexts, CustomMap, NonEmptyLists;
    PutTextsNormal(meta.lines, filled.texts);
    PutTextsBack(meta.lines, filled.texts);
    PutTextsSame(meta.lines);
  }

  lemma PutTextsSame(lines: map<LineField, string>)
    ensures PutTexts(lines, PlaceTexts(lines)) == lines
  {
  }

  lemma FilledTextsNormal(state: PlaceState, fill: PlaceFill)
    requires forall p | p in state.texts :: state.texts[p] != ""
    ensures forall p | p in FilledPlace(state, fill).texts :: FilledPlace(state, fill).texts[p] != ""
  {
    forall p | p in FilledPlace(state, fill).texts ensures FilledPlace(state, fill).texts[p] != "" {
      FilledAt(state, fill, p);
    }
  }

  lemma PutTextsBack(lines: map<LineField, string>, texts: map<PlaceField, string>)
    ensures PutTexts(PutTexts(lines, texts), PlaceTexts(lines)) == lines
  {
  }

  /** **The change of an edit says what the edit did**: redoing it gives the state after, undoing it the state before,
      for every edit of every photo. */
  lemma EditRecords(meta: Metadata, edit: Edit, path: string)
    requires Normal(meta) && IsPhotoEdit(edit)
    ensures Records(meta, Edited(meta, edit, path), ChangeOf(meta, edit, path))
  {
    match edit
    case SetMetadataField(_, _, _) => WriteRecords(meta, edit);
    case FillPlaceNames(_, _) => FillRecords(meta, edit);
    case AddKeyword(_, _) => KeywordsRecord(meta, edit.photo, KeywordsOf(Edited(meta, edit, path)));
    case RemoveKeyword(_, _) => KeywordsRecord(meta, edit.photo, KeywordsOf(Edited(meta, edit, path)));
    case RemoveKeywords(_, _) => KeywordsRecord(meta, edit.photo, KeywordsOf(Edited(meta, edit, path)));
    case _ =>
  }

  /** The change of an edit records the path snapshots there were, when it touches them. */
  lemma EditRecordsPaths(meta: Metadata, edit: Edit, path: string)
    requires IsPhotoEdit(edit)
    ensures var after, change := Edited(meta, edit, path), ChangeOf(meta, edit, path);
            if change.Some? && change.value.KeywordsChange? then change.value.keywordsBefore.paths == meta.keywordPaths
            else after.keywordPaths == meta.keywordPaths
  {
    hide FilledPlace, DropFrom;
  }

  lemma KeywordsRecord(meta: Metadata, photo: PhotoId, keywords: KeywordSet)
    requires Normal(meta)
    ensures Records(meta, WithKeywords(meta, keywords), Some(KeywordsChange(photo, KeywordsOf(meta), keywords)))
  {
  }

  /** An edit gives a photo no keyword but the one it adds. */
  lemma EditedKeywords(meta: Metadata, edit: Edit, path: string)
    requires IsPhotoEdit(edit)
    ensures forall k | k in Edited(meta, edit, path).keywordIds ::
              k in meta.keywordIds || (edit.AddKeyword? && k == edit.keyword)
  {
    if edit.RemoveKeywords? {
      DropLeavesTheOthers(KeywordsOf(meta), 0, edit.keywords);
      FilterHolds(meta.keywordIds[0..], Outside(edit.keywords));
    }
  }

  /** A sweep leaves a photo its other keywords, in their order, and everything else as it was. */
  lemma SweptPhoto(meta: Metadata, edit: Edit)
    requires edit.RemoveKeywords?
    ensures Swept(meta, Edited(meta, edit, ""), edit.keywords)
  {
    hide Filter, DropFrom, Outside;
    SweptIds(meta.keywordIds, meta.keywordPaths, edit.keywords);
  }

  lemma SweptIds(ids: seq<KeywordId>, paths: seq<string>, gone: seq<KeywordId>)
    ensures DropFrom(KeywordSet(ids, paths), 0, gone).ids == Filter(ids, Outside(gone))
    ensures (forall k | k in ids :: k !in gone) ==> Filter(ids, Outside(gone)) == ids
  {
    hide DropFrom;
    DropLeavesTheOthers(KeywordSet(ids, paths), 0, gone);
    assert ids[0..] == ids;
    if forall k | k in ids :: k !in gone {
      AllKept(ids, Outside(gone));
    }
  }

  /** A photo before and after losing keywords. */
  predicate Swept(before: Metadata, after: Metadata, gone: seq<KeywordId>) {
    && after.keywordIds == Filter(before.keywordIds, Outside(gone))
    && after == WithKeywords(before, KeywordsOf(after))
  }

  // ---------------------------------------------------------------- what an edit needs, and what several make

  datatype EditError = PhotoNotFound | KeywordRefused(why: Refusal) | InvalidCommand | WriteFailed

  /** What edits change: the photos and the vocabulary. */
  datatype Desk = Desk(photos: map<PhotoId, Metadata>, tree: Tree)

  /** Why an edit is refused, if it is. */
  function Refusing(desk: Desk, edit: Edit, fold: string -> string): Option<EditError> {
    if edit.Other? then Some(InvalidCommand)
    else if edit.CreateKeyword? then
      var plan := PlanCreate(desk.tree, edit.name, edit.parent, edit.id, fold);
      if plan.Refused? then Some(KeywordRefused(plan.why)) else None
    else if edit.photo !in desk.photos then Some(PhotoNotFound)
    else if edit.AddKeyword? && edit.keyword !in desk.photos[edit.photo].keywordIds && edit.keyword !in desk.tree
    then Some(KeywordRefused(KeywordNotFound))
    else None
  }

  /** The path of the keyword an edit adds. */
  function PathFor(tree: Tree, edit: Edit): string {
    if edit.AddKeyword? && edit.keyword in tree then PathOf(tree, edit.keyword) else ""
  }

  /** The photos and the vocabulary after an edit that is not refused. */
  function Apply(desk: Desk, edit: Edit, fold: string -> string): Desk {
    if edit.Other? then desk
    else if edit.CreateKeyword? then
      var plan := PlanCreate(desk.tree, edit.name, edit.parent, edit.id, fold);
      if plan.Deltas? then desk.(tree := Overlay(desk.tree, plan.deltas, Redo)) else desk
    else if edit.photo in desk.photos then
      desk.(photos := desk.photos[edit.photo := Edited(desk.photos[edit.photo], edit, PathFor(desk.tree, edit))])
    else desk
  }

  function ApplyAll(desk: Desk, edits: seq<Edit>, fold: string -> string): Desk {
    if edits == [] then desk else Apply(ApplyAll(desk, edits[..|edits| - 1], fold), edits[|edits| - 1], fold)
  }

  /** No photo carries any of a branch. */
  predicate NoneCarried(photos: map<PhotoId, Metadata>, branch: seq<KeywordId>) {
    forall p | p in photos :: forall k | k in photos[p].keywordIds :: k !in branch
  }

  /** The path snapshots of a photo's keywords with the fresh paths there are. */
  function RefreshedPaths(ids: seq<KeywordId>, snapshots: seq<string>,
                          paths: map<KeywordId, string>): (after: seq<string>)
    ensures |after| == |snapshots|
  {
    seq(|snapshots|, i requires 0 <= i < |snapshots| =>
      if i < |ids| && ids[i] in paths then paths[ids[i]] else snapshots[i])
  }
}
