// A photo's own metadata as its sidecar holds it, and the text view of a field that the metadata panel edits and
// the journal keeps.
module PhotoMetadata {
  import opened Wrappers
  import opened Text
  import opened Vocabulary

  datatype Flag = Picked | Rejected

  /** The place fields, in the order the place names fill them. */
  datatype PlaceField = City | Region | Country | CountryCode

  /** The fields of one line. */
  datatype LineField =
    | Title | Caption | Rights | UsageTerms | WebStatement | Credit | SourceLine | Headline | Instructions | Sublocation
    | Place(place: PlaceField) | Event

  /** The fields of several names. */
  datatype NamesField = Creator | Persons

  datatype MetadataField = Line(line: LineField) | List(list: NamesField) | Custom(name: string)

  datatype CustomField = CustomField(name: string, value: string)

  /** The record of what Auroraw filled: for a place field, the text it wrote, an empty text when a person emptied
      the field, nothing otherwise. */
  datatype PlaceFilled = PlaceFilled(latitude: string, longitude: string, fields: map<PlaceField, string>,
                                     extra: seq<string>)

  datatype Metadata = Metadata(
    rating: Option<nat>, flag: Option<Flag>, colour: Option<string>,
    keywordIds: seq<KeywordId>, keywordPaths: seq<string>,
    lines: map<LineField, string>, names: map<NamesField, seq<string>>, custom: seq<CustomField>,
    placeFilled: Option<PlaceFilled>)

  // ---------------------------------------------------------------- the text view of a field

  function LineOf(meta: Metadata, line: LineField): Option<string> {
    if line in meta.lines then Some(meta.lines[line]) else None
  }

  function NamesOf(meta: Metadata, list: NamesField): seq<string> {
    if list in meta.names then meta.names[list] else []
  }

  /** The value of the first custom field of that name, if there is one. */
  function CustomOf(custom: seq<CustomField>, name: string): Option<string> {
    if custom == [] then None
    else if custom[0].name == name then Some(custom[0].value)
    else CustomOf(custom[1..], name)
  }

  function OrEmpty(text: Option<string>): string { if text.Some? then text.value else "" }

  /** The field's text, as the panel shows it. */
  function Get(meta: Metadata, field: MetadataField): string {
    match field
    case Line(line) => OrEmpty(LineOf(meta, line))
    case List(list) => Join(NamesOf(meta, list), '\n')
    case Custom(name) => OrEmpty(CustomOf(meta.custom, name))
  }

  function WithLine(lines: map<LineField, string>, line: LineField, value: string): map<LineField, string> {
    if value == "" then lines - {line} else lines[line := value]
  }

  function WithoutCustom(custom: seq<CustomField>, name: string): seq<CustomField> {
    if custom == [] then []
    else (if custom[0].name == name then [] else [custom[0]]) + WithoutCustom(custom[1..], name)
  }

  /** Sets the field from a text: an empty one clears it. A custom field that is rewritten moves to the end. */
  function Set(meta: Metadata, field: MetadataField, value: string): Metadata {
    match field
    case Line(line) => meta.(lines := WithLine(meta.lines, line, value))
    case List(list) => meta.(names := meta.names[list := Names(value)])
    case Custom(name) =>
      meta.(custom := WithoutCustom(meta.custom, name) + if value == "" then [] else [CustomField(name, value)])
  }

  // ---------------------------------------------------------------- normal metadata, and what is compared

  /** No text that is there and empty, no name that would not read back, no custom field twice. */
  predicate Normal(meta: Metadata) {
    && (forall f | f in meta.lines :: meta.lines[f] != "")
    && (forall f | f in meta.names :: NormalNames(meta.names[f]))
    && NormalCustom(meta.custom)
  }

  predicate NormalCustom(custom: seq<CustomField>) {
    && (forall i | 0 <= i < |custom| :: custom[i].value != "")
    && forall i, j | 0 <= i < j < |custom| :: custom[i].name != custom[j].name
  }

  /** What undoing restores: everything but the path snapshots of the keywords (a background job's) and the order of
      the custom fields. */
  datatype PhotoView = PhotoView(
    rating: Option<nat>, flag: Option<Flag>, colour: Option<string>, keywordIds: seq<KeywordId>,
    lines: map<LineField, string>, names: map<NamesField, seq<string>>, custom: map<string, string>,
    placeFilled: Option<PlaceFilled>)

  function CustomMap(custom: seq<CustomField>): map<string, string> {
    if custom == [] then map[] else CustomMap(custom[1..])[custom[0].name := custom[0].value]
  }

  /** A list that is absent and a list that is empty are one. */
  function NonEmptyLists(names: map<NamesField, seq<string>>): map<NamesField, seq<string>> {
    map f | f in names && names[f] != [] :: names[f]
  }

  function ViewOf(meta: Metadata): PhotoView {
    PhotoView(meta.rating, meta.flag, meta.colour, meta.keywordIds, meta.lines, NonEmptyLists(meta.names),
              CustomMap(meta.custom), meta.placeFilled)
  }

  predicate NormalView(view: PhotoView) {
    && (forall f | f in view.lines :: view.lines[f] != "")
    && (forall f | f in view.names :: view.names[f] != [] && NormalNames(view.names[f]))
    && (forall name | name in view.custom :: view.custom[name] != "")
  }

  function WithNames(names: map<NamesField, seq<string>>, list: NamesField,
                     value: seq<string>): map<NamesField, seq<string>> {
    if value == [] then names - {list} else names[list := value]
  }

  function WithCustom(custom: map<string, string>, name: string, value: string): map<string, string> {
    if value == "" then custom - {name} else custom[name := value]
  }

  function SetView(view: PhotoView, field: MetadataField, value: string): PhotoView {
    match field
    case Line(line) => view.(lines := WithLine(view.lines, line, value))
    case List(list) => view.(names := WithNames(view.names, list, Names(value)))
    case Custom(name) => view.(custom := WithCustom(view.custom, name, value))
  }

  function GetView(view: PhotoView, field: MetadataField): string {
    match field
    case Line(line) => if line in view.lines then view.lines[line] else ""
    case List(list) => Join(if list in view.names then view.names[list] else [], '\n')
    case Custom(name) => if name in view.custom then view.custom[name] else ""
  }

  lemma {:induction false} CustomMapHolds(custom: seq<CustomField>, name: string)
    ensures CustomOf(custom, name) == if name in CustomMap(custom) then Some(CustomMap(custom)[name]) else None
  {
    if custom != [] {
      CustomMapHolds(custom[1..], name);
    }
  }

  lemma {:induction false} WithoutCustomHolds(custom: seq<CustomField>, name: string)
    ensures forall c :: c in WithoutCustom(custom, name) <==> c in custom && c.name != name
  {
    if custom != [] {
      WithoutCustomHolds(custom[1..], name);
      assert custom == [custom[0]] + custom[1..];
    }
  }

  lemma {:induction false} WithoutCustomNormal(custom: seq<CustomField>, name: string)
    requires NormalCustom(custom)
    ensures NormalCustom(WithoutCustom(custom, name))
  {
    if custom != [] {
      WithoutCustomNormal(custom[1..], name);
      WithoutCustomHolds(custom[1..], name);
    }
  }

  lemma PutOther<T>(m: map<string, T>, name: string, other: string, value: T)
    ensures name != other ==> (m - {name})[other := value] == m[other := value] - {name}
    ensures m[name := value] - {name} == m - {name}
    ensures (m - {name})[name := value] == m[name := value]
  {
  }

  lemma {:induction false} WithoutCustomMap(custom: seq<CustomField>, name: string)
    ensures CustomMap(WithoutCustom(custom, name)) == CustomMap(custom) - {name}
  {
    if custom != [] {
      WithoutCustomMap(custom[1..], name);
      PutOther(CustomMap(custom[1..]), name, custom[0].name, custom[0].value);
      if custom[0].name == name {
        assert WithoutCustom(custom, name) == WithoutCustom(custom[1..], name);
      } else {
        assert WithoutCustom(custom, name)[1..] == WithoutCustom(custom[1..], name);
      }
    }
  }

  lemma {:induction false} CustomMapAppend(custom: seq<CustomField>, last: CustomField)
    requires forall c | c in custom :: c.name != last.name
    ensures CustomMap(custom + [last]) == CustomMap(custom)[last.name := last.value]
  {
    if custom == [] {
      assert custom + [last] == [last];
      assert CustomMap([last][1..]) == map[];
    } else {
      assert (custom + [last])[1..] == custom[1..] + [last];
      CustomMapAppend(custom[1..], last);
      assert custom[0] in custom;
    }
  }

  lemma SetCustom(custom: seq<CustomField>, name: string, value: string)
    requires NormalCustom(custom)
    ensures var after := WithoutCustom(custom, name) + if value == "" then [] else [CustomField(name, value)];
            NormalCustom(after) && CustomMap(after) == WithCustom(CustomMap(custom), name, value)
  {
    WithoutCustomHolds(custom, name);
    WithoutCustomNormal(custom, name);
    WithoutCustomMap(custom, name);
    var kept := WithoutCustom(custom, name);
    if value == "" {
      assert kept + [] == kept;
    } else {
      CustomMapAppend(kept, CustomField(name, value));
      PutOther(CustomMap(custom), name, name, value);
    }
  }

  lemma SetNames(names: map<NamesField, seq<string>>, list: NamesField, value: seq<string>)
    ensures NonEmptyLists(names[list := value]) == WithNames(NonEmptyLists(names), list, value)
  {
  }

  /** Setting a field is setting it in what is compared, and keeps metadata normal. */
  lemma SetIsSetView(meta: Metadata, field: MetadataField, value: string)
    requires Normal(meta)
    ensures Normal(Set(meta, field, value))
    ensures ViewOf(Set(meta, field, value)) == SetView(ViewOf(meta), field, value)
  {
    match field
    case Line(line) =>
    case List(list) =>
      NamesAreNormal(value);
      SetNames(meta.names, list, Names(value));
    case Custom(name) =>
      SetCustom(meta.custom, name, value);
  }

  /** The text of a field is a text of what is compared. */
  lemma GetIsGetView(meta: Metadata, field: MetadataField)
    ensures Get(meta, field) == GetView(ViewOf(meta), field)
  {
    match field
    case Line(line) =>
    case List(list) =>
    case Custom(name) => CustomMapHolds(meta.custom, name);
  }

  lemma {:induction false} CustomValues(custom: seq<CustomField>)
    requires forall i | 0 <= i < |custom| :: custom[i].value != ""
    ensures forall name | name in CustomMap(custom) :: CustomMap(custom)[name] != ""
  {
    if custom != [] {
      CustomValues(custom[1..]);
    }
  }

  lemma NormalHasNormalView(meta: Metadata)
    requires Normal(meta)
    ensures NormalView(ViewOf(meta))
  {
    CustomValues(meta.custom);
  }

  /** Putting a value in and then the value before (or nothing) gives the map back. */
  lemma PutBack<K, T>(m: map<K, T>, k: K, value: T)
    ensures k in m ==> (m - {k})[k := m[k]] == m && m[k := value][k := m[k]] == m
    ensures k !in m ==> (m - {k}) - {k} == m && m[k := value] - {k} == m
  {
  }

  /** **The text view loses nothing**: whatever a field was set to, setting it back to its text before restores the
      metadata. */
  lemma TextViewRestores(view: PhotoView, field: MetadataField, value: string)
    requires NormalView(view)
    ensures SetView(SetView(view, field, value), field, GetView(view, field)) == view
  {
    match field
    case Line(line) => PutBack(view.lines, line, value);
    case List(list) =>
      NamesOfJoin(if list in view.names then view.names[list] else []);
      PutBack(view.names, list, Names(value));
    case Custom(name) => PutBack(view.custom, name, value);
  }
}
