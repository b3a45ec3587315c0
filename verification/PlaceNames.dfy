// The rule of what finding the place names writes: only a field that is empty, or that Auroraw filled and nobody has
// touched; what a person wrote or emptied is theirs.
module PlaceNames {
  import opened Wrappers
  import opened PhotoMetadata

  /** What was found for a position. */
  datatype PlaceFill = PlaceFill(latitude: string, longitude: string, names: map<PlaceField, string>, refresh: bool)

  const ALL_PLACES: seq<PlaceField> := [City, Region, Country, CountryCode]

  /** The four place fields and the record of what Auroraw filled: the unit the place names change and undo as. */
  datatype PlaceState = PlaceState(texts: map<PlaceField, string>, filled: Option<PlaceFilled>)

  function PlaceTexts(lines: map<LineField, string>): map<PlaceField, string> {
    map p: PlaceField | Place(p) in lines :: lines[Place(p)]
  }

  function PlaceStateOf(meta: Metadata): PlaceState {
    PlaceState(PlaceTexts(meta.lines), meta.placeFilled)
  }

  /** The lines with the place fields put in a state. */
  function PutTexts(lines: map<LineField, string>, texts: map<PlaceField, string>): map<LineField, string> {
    map f | f in lines.Keys + (set p | p in texts :: Place(p)) && (f.Place? ==> f.place in texts) ::
      if f.Place? then texts[f.place] else lines[f]
  }

  function PutPlaceState(meta: Metadata, state: PlaceState): Metadata {
    meta.(lines := PutTexts(meta.lines, state.texts), placeFilled := state.filled)
  }

  // ---------------------------------------------------------------- the record of what Auroraw filled

  const NO_RECORD := PlaceFilled("", "", map[], [])

  function RecordOf(meta: Metadata): PlaceFilled {
    if meta.placeFilled.Some? then meta.placeFilled.value else NO_RECORD
  }

  function Recorded(record: PlaceFilled, field: PlaceField): Option<string> {
    if field in record.fields then Some(record.fields[field]) else None
  }

  /** What is listed of a field, if anything. */
  function Listed(filled: Option<PlaceFilled>, place: PlaceField): Option<string> {
    if filled.Some? then Recorded(filled.value, place) else None
  }

  function Record(record: PlaceFilled, field: PlaceField, text: Option<string>): PlaceFilled {
    record.(fields := if text.Some? then record.fields[field := text.value] else record.fields - {field})
  }

  predicate RecordIsNothing(record: PlaceFilled) { record.fields == map[] && record.extra == [] }

  /** A person wrote the field: it leaves the record, and the record goes when nothing is left of it. */
  function Release(filled: Option<PlaceFilled>, field: PlaceField): Option<PlaceFilled> {
    if filled.None? then None
    else
      var record := Record(filled.value, field, None);
      if RecordIsNothing(record) then None else Some(record)
  }

  /** A person emptied the field: the record keeps it as an emptied one. */
  function Decline(filled: Option<PlaceFilled>, field: PlaceField): Option<PlaceFilled> {
    Some(Record(if filled.Some? then filled.value else NO_RECORD, field, Some("")))
  }

  /** The record after a person's write of a field, given its text before and after it. */
  function Released(filled: Option<PlaceFilled>, field: MetadataField, before: string,
                    after: string): Option<PlaceFilled> {
    if !(field.Line? && field.line.Place?) then filled
    else if after != "" then Release(filled, field.line.place)
    else if before != "" then Decline(Release(filled, field.line.place), field.line.place)
    else filled
  }

  /** A person's write of a field: the text, and for a place field the record. */
  function PersonWrites(meta: Metadata, field: MetadataField, value: string): Metadata {
    var before := Get(meta, field);
    var wrote := if before != value then Set(meta, field, value) else meta;
    wrote.(placeFilled := Released(wrote.placeFilled, field, before, value))
  }

  // ---------------------------------------------------------------- the rule

  function TextOf(texts: map<PlaceField, string>, field: PlaceField): Option<string> {
    if field in texts then Some(texts[field]) else None
  }

  function PutText(texts: map<PlaceField, string>, field: PlaceField, value: Option<string>): map<PlaceField, string> {
    if value.Some? then texts[field := value.value] else texts - {field}
  }

  /** An empty text clears a place field. */
  function NonEmpty(value: Option<string>): Option<string> {
    if value == Some("") then None else value
  }

  /** One place field: its text, and what the record says of it. */
  datatype Slot = Slot(text: Option<string>, recorded: Option<string>)

  /** The rule, for one field, and whether it wrote. */
  function FillSlot(slot: Slot, found: Option<string>, refresh: bool): (Slot, bool) {
    match slot.text
    case None =>
      if slot.recorded == Some("") then (slot, false)       // emptied by a person: their answer, kept empty
      else if found.Some? then (Slot(NonEmpty(found), found), true)
      else (Slot(None, None), false)
    case Some(text) =>
      if slot.recorded != Some(text) then (Slot(slot.text, None), false)   // a person's
      else if refresh then (Slot(if found != slot.text then NonEmpty(found) else slot.text, found), found != slot.text)
      else (slot, false)
  }

  datatype Filling = Filling(texts: map<PlaceField, string>, record: PlaceFilled, written: bool)

  function SlotOf(filling: Filling, field: PlaceField): Slot {
    Slot(TextOf(filling.texts, field), Recorded(filling.record, field))
  }

  function FillField(filling: Filling, field: PlaceField, fill: PlaceFill): Filling {
    var (slot, wrote) := FillSlot(SlotOf(filling, field), TextOf(fill.names, field), fill.refresh);
    Filling(PutText(filling.texts, field, slot.text), Record(filling.record, field, slot.recorded),
            filling.written || wrote)
  }

  function FillFields(filling: Filling, fields: seq<PlaceField>, fill: PlaceFill): Filling {
    if fields == [] then filling
    else FillField(FillFields(filling, fields[..|fields| - 1], fill), fields[|fields| - 1], fill)
  }

  /** The record a fill leaves: none when it holds nothing, at the new position when something was written. */
  function FilledRecord(before: Option<PlaceFilled>, filling: Filling, fill: PlaceFill): Option<PlaceFilled> {
    if RecordIsNothing(filling.record) then None
    else if filling.written || before.None?
    then Some(filling.record.(latitude := fill.latitude, longitude := fill.longitude))
    else Some(filling.record)
  }

  function StartOf(state: PlaceState): Filling {
    Filling(state.texts, if state.filled.Some? then state.filled.value else NO_RECORD, false)
  }

  function FilledPlace(state: PlaceState, fill: PlaceFill): PlaceState {
    var filling := FillFields(StartOf(state), ALL_PLACES, fill);
    PlaceState(filling.texts, FilledRecord(state.filled, filling, fill))
  }

  lemma PutSame(m: map<PlaceField, string>, field: PlaceField)
    ensures PutText(m, field, TextOf(m, field)) == m
  {
  }

  /** Writes what was found into the metadata by the rule, and says what changed (nothing: `None`). */
  method FillPlace(meta: Metadata, fill: PlaceFill) returns (after: Metadata, change: Option<(PlaceState, PlaceState)>)
    ensures after == PutPlaceState(meta, FilledPlace(PlaceStateOf(meta), fill))
    ensures FillsPhoto(meta, after, fill)
    ensures change == if after == meta then None else Some((PlaceStateOf(meta), PlaceStateOf(after)))
  {
    hide FillsPhoto, FillFields, PutPlaceState;
    FillDoes(meta, fill);
    var before := PlaceStateOf(meta);
    var texts, record, written := FillAll(before.texts, RecordOf(meta), fill);
    var filled := if RecordIsNothing(record) then None
                  else if written || meta.placeFilled.None?
                  then Some(record.(latitude := fill.latitude, longitude := fill.longitude))
                  else Some(record);
    after := PutPlaceState(meta, PlaceState(texts, filled));
    PutThenRead(meta, PlaceState(texts, filled));
    PutOnlyWhenOther(meta, PlaceState(texts, filled));
    change := if before == PlaceStateOf(after) then None else Some((before, PlaceStateOf(after)));
  }

  /** The four fields, one after the other, the record and whether anything was written kept along. */
  method FillAll(before: map<PlaceField, string>, was: PlaceFilled, fill: PlaceFill)
    returns (texts: map<PlaceField, string>, record: PlaceFilled, written: bool)
    ensures Filling(texts, record, written) == FillFields(Filling(before, was, false), ALL_PLACES, fill)
  {
    texts, record, written := before, was, false;
    for n := 0 to |ALL_PLACES|
      invariant Filling(texts, record, written) == FillFields(Filling(before, was, false), ALL_PLACES[..n], fill)
    {
      var field := ALL_PLACES[n];
      var current, found := TextOf(texts, field), TextOf(fill.names, field);
      var ours := current.Some? && Recorded(record, field) == current;
      assert ALL_PLACES[..n + 1][..n] == ALL_PLACES[..n];
      PutSame(texts, field);
      PutSame(record.fields, field);
      if current.None? {
        if Recorded(record, field) == Some("") {
          // Emptied by a person: their answer, kept empty.
        } else if found.Some? {
          texts := PutText(texts, field, NonEmpty(found));
          record := Record(record, field, found);
          written := true;
        } else {
          record := Record(record, field, None);
        }
      } else if ours && fill.refresh {
        if found != current {
          texts := PutText(texts, field, NonEmpty(found));
          written := true;
        }
        record := Record(record, field, found);
      } else if !ours {
        record := Record(record, field, None);
      }
    }
    assert ALL_PLACES[..|ALL_PLACES|] == ALL_PLACES;
  }

  lemma PutOnlyWhenOther(meta: Metadata, state: PlaceState)
    ensures PutPlaceState(meta, state) == meta <==> state == PlaceStateOf(meta)
  {
    if state == PlaceStateOf(meta) {
      assert PutTexts(meta.lines, PlaceTexts(meta.lines)) == meta.lines;
    }
    PutThenRead(meta, state);
  }

  lemma PutThenRead(meta: Metadata, state: PlaceState)
    ensures PlaceStateOf(PutPlaceState(meta, state)) == state
  {
  }

  // ---------------------------------------------------------------- one field at a time

  function SlotIn(state: PlaceState, field: PlaceField): Slot {
    Slot(TextOf(state.texts, field), Listed(state.filled, field))
  }

  lemma FillFieldAt(filling: Filling, at: PlaceField, fill: PlaceFill, field: PlaceField)
    ensures SlotOf(FillField(filling, at, fill), field) ==
            if field == at then FillSlot(SlotOf(filling, field), TextOf(fill.names, field), fill.refresh).0
            else SlotOf(filling, field)
  {
  }

  lemma {:induction false} FillFieldsAt(filling: Filling, fields: seq<PlaceField>, fill: PlaceFill, field: PlaceField)
    requires forall i, j | 0 <= i < j < |fields| :: fields[i] != fields[j]
    ensures SlotOf(FillFields(filling, fields, fill), field) ==
            if field in fields then FillSlot(SlotOf(filling, field), TextOf(fill.names, field), fill.refresh).0
            else SlotOf(filling, field)
  {
    hide FillField, SlotOf, FillSlot;
    if fields != [] {
      var front, last := fields[..|fields| - 1], fields[|fields| - 1];
      FillFieldsAt(filling, front, fill, field);
      FillFieldAt(FillFields(filling, front, fill), last, fill, field);
      assert fields == front + [last];
    }
  }

  lemma FilledSlotAt(state: PlaceState, fill: PlaceFill, field: PlaceField)
    ensures SlotIn(FilledPlace(state, fill), field) ==
              FillSlot(SlotIn(state, field), TextOf(fill.names, field), fill.refresh).0
  {
    hide FillFields;
    assert field in ALL_PLACES by {
      assert ALL_PLACES[0] == City && ALL_PLACES[1] == Region && ALL_PLACES[2] == Country
        && ALL_PLACES[3] == CountryCode;
    }
    FillFieldsAt(StartOf(state), ALL_PLACES, fill, field);
    var filling := FillFields(StartOf(state), ALL_PLACES, fill);
  }

  // ---------------------------------------------------------------- the rule, said of a photo before and after

  /** The field is empty and that is no person's answer: the position tells. */
  predicate IsOpen(slot: Slot) { slot.text.None? && slot.recorded != Some("") }

  /** The field has the text Auroraw filled it with. */
  predicate IsFilled(slot: Slot) { slot.text.Some? && slot.recorded == slot.text }

  predicate MayWrite(slot: Slot, refresh: bool) { IsOpen(slot) || (IsFilled(slot) && refresh) }

  /** A field and what is recorded of it, before and after a fill that `found` a name for it, or none: a field that may
      be written says exactly what was found, and is recorded as filled with it; any other keeps its text, and stays
      recorded only with the text it was filled with or as one a person emptied. */
  predicate ByTheRule(before: Slot, after: Slot, found: Option<string>, refresh: bool) {
    && (MayWrite(before, refresh) ==> OrEmpty(after.text) == OrEmpty(found) && after.recorded == found)
    && (MayWrite(before, refresh) && after.text == Some("") ==> before.text == Some(""))
    && (!MayWrite(before, refresh) ==> after.text == before.text)
    && (!MayWrite(before, refresh) ==>
          after.recorded == if IsFilled(before) || before.text.None? then before.recorded else None)
  }

  /** A place field of a photo, and what is recorded of it. */
  function PlaceAt(meta: Metadata, place: PlaceField): Slot {
    Slot(LineOf(meta, Place(place)), Listed(meta.placeFilled, place))
  }

  /** The fill has something else to say of the field, and may. */
  predicate WritesPlace(meta: Metadata, fill: PlaceFill, place: PlaceField) {
    MayWrite(PlaceAt(meta, place), fill.refresh) && TextOf(fill.names, place) != LineOf(meta, Place(place))
  }

  function ExtraOf(filled: Option<PlaceFilled>): seq<string> { if filled.Some? then filled.value.extra else [] }

  /** The record a fill leaves: none when it holds nothing, else with what else it held, at the new position when
      something was written. */
  predicate RecordFollows(before: Metadata, after: Metadata, fill: PlaceFill) {
    && (after.placeFilled.None? <==>
          ExtraOf(before.placeFilled) == [] && forall p: PlaceField :: PlaceAt(after, p).recorded.None?)
    && (after.placeFilled.Some? ==>
          var was, record := before.placeFilled, after.placeFilled.value;
          && record.extra == ExtraOf(was)
          && if was.None? || exists p: PlaceField :: WritesPlace(before, fill, p)
             then record.latitude == fill.latitude && record.longitude == fill.longitude
             else record.latitude == was.value.latitude && record.longitude == was.value.longitude)
  }

  /** A photo before and after a fill: every place field by the rule, the record with them, and nothing else. */
  ghost predicate FillsPhoto(before: Metadata, after: Metadata, fill: PlaceFill) {
    && (forall p: PlaceField ::
          ByTheRule(PlaceAt(before, p), PlaceAt(after, p), TextOf(fill.names, p), fill.refresh))
    && RecordFollows(before, after, fill)
    && (forall f: LineField :: !f.Place? ==> LineOf(after, f) == LineOf(before, f))
    && after == before.(lines := after.lines, placeFilled := after.placeFilled)
  }

  lemma PlaceAtIsSlot(meta: Metadata, place: PlaceField)
    ensures PlaceAt(meta, place) == SlotIn(PlaceStateOf(meta), place)
  {
  }

  lemma RuleIsSlot(slot: Slot, found: Option<string>, refresh: bool)
    ensures ByTheRule(slot, FillSlot(slot, found, refresh).0, found, refresh)
    ensures FillSlot(slot, found, refresh).1 <==> MayWrite(slot, refresh) && found != slot.text
  {
  }

  /** What a fill does to one field is the rule, read off the field before and after. */
  lemma FilledAt(state: PlaceState, fill: PlaceFill, field: PlaceField)
    ensures ByTheRule(SlotIn(state, field), SlotIn(FilledPlace(state, fill), field), TextOf(fill.names, field),
                      fill.refresh)
  {
    FilledSlotAt(state, fill, field);
    RuleIsSlot(SlotIn(state, field), TextOf(fill.names, field), fill.refresh);
  }

  lemma {:induction false} WrittenIs(filling: Filling, fields: seq<PlaceField>, fill: PlaceFill)
    requires forall i, j | 0 <= i < j < |fields| :: fields[i] != fields[j]
    ensures FillFields(filling, fields, fill).written <==>
            || filling.written
            || exists p :: p in fields
                 && FillSlot(SlotOf(filling, p), TextOf(fill.names, p), fill.refresh).1
    ensures FillFields(filling, fields, fill).record.extra == filling.record.extra
    ensures FillFields(filling, fields, fill).record.latitude == filling.record.latitude
    ensures FillFields(filling, fields, fill).record.longitude == filling.record.longitude
  {
    hide FillSlot, SlotOf;
    if fields != [] {
      var front, last := fields[..|fields| - 1], fields[|fields| - 1];
      WrittenIs(filling, front, fill);
      FillFieldsAt(filling, front, fill, last);
      assert fields == front + [last];
    }
  }

  lemma AllPlaces(place: PlaceField)
    ensures place in ALL_PLACES
  {
    assert ALL_PLACES[0] == City && ALL_PLACES[1] == Region && ALL_PLACES[2] == Country && ALL_PLACES[3] == CountryCode;
  }

  /** **A fill fills by the rule**: whatever a photo's fields and record were. */
  lemma FillDoes(meta: Metadata, fill: PlaceFill)
    ensures FillsPhoto(meta, PutPlaceState(meta, FilledPlace(PlaceStateOf(meta), fill)), fill)
  {
    hide FillFields, FillSlot, ByTheRule, FilledPlace, RecordFollows;
    var state := PlaceStateOf(meta);
    var filled := FilledPlace(state, fill);
    var after := PutPlaceState(meta, filled);
    PutThenRead(meta, filled);
    forall p: PlaceField
      ensures ByTheRule(PlaceAt(meta, p), PlaceAt(after, p), TextOf(fill.names, p), fill.refresh)
    {
      PlaceAtIsSlot(meta, p);
      PlaceAtIsSlot(after, p);
      FilledAt(state, fill, p);
    }
    RecordDoes(meta, fill);
  }

  /** Something was written exactly when the fill had something else to say of a field it may write. */
  lemma WrittenSays(meta: Metadata, fill: PlaceFill)
    ensures var filling := FillFields(StartOf(PlaceStateOf(meta)), ALL_PLACES, fill);
            && (filling.written <==> exists p: PlaceField :: WritesPlace(meta, fill, p))
            && filling.record.(fields := map[]) == RecordOf(meta).(fields := map[])
  {
    hide FillFields, FillSlot, MayWrite;
    WrittenIs(StartOf(PlaceStateOf(meta)), ALL_PLACES, fill);
    forall p: PlaceField
      ensures p in ALL_PLACES && SlotOf(StartOf(PlaceStateOf(meta)), p) == PlaceAt(meta, p)
      ensures FillSlot(PlaceAt(meta, p), TextOf(fill.names, p), fill.refresh).1 <==> WritesPlace(meta, fill, p)
    {
      AllPlaces(p);
      RuleIsSlot(PlaceAt(meta, p), TextOf(fill.names, p), fill.refresh);
    }
  }

  lemma RecordDoes(meta: Metadata, fill: PlaceFill)
    ensures RecordFollows(meta, PutPlaceState(meta, FilledPlace(PlaceStateOf(meta), fill)), fill)
  {
    hide FillFields, MayWrite, WritesPlace, PutTexts, PlaceTexts;
    var filling := FillFields(StartOf(PlaceStateOf(meta)), ALL_PLACES, fill);
    var after := PutPlaceState(meta, FilledPlace(PlaceStateOf(meta), fill));
    WrittenSays(meta, fill);
    RecordHolds(filling.record);
    assert after.placeFilled == FilledRecord(meta.placeFilled, filling, fill);
    forall p: PlaceField ensures PlaceAt(after, p).recorded == Recorded(filling.record, p) {
      assert RecordIsNothing(filling.record) ==> Recorded(filling.record, p).None?;
    }
  }

  lemma RecordHolds(record: PlaceFilled)
    ensures RecordIsNothing(record) <==> record.extra == [] && forall p: PlaceField :: Recorded(record, p).None?
  {
    if p :| p in record.fields {
      assert Recorded(record, p).Some?;
    }
  }

  /** A person's write, for the field written. */
  function PersonSlot(slot: Slot, value: string): Slot {
    var before := OrEmpty(slot.text);
    Slot(if before != value then NonEmpty(Some(value)) else slot.text,
         if value != "" then None else if before != "" then Some("") else slot.recorded)
  }

  lemma WriteAt(meta: Metadata, field: MetadataField, value: string, place: PlaceField)
    ensures SlotIn(PlaceStateOf(PersonWrites(meta, field, value)), place) ==
            if field == Line(Place(place)) then PersonSlot(SlotIn(PlaceStateOf(meta), place), value)
            else SlotIn(PlaceStateOf(meta), place)
  {
    var before := Get(meta, field);
    var wrote := if before != value then Set(meta, field, value) else meta;
    assert wrote.placeFilled == meta.placeFilled;
    assert LineOf(wrote, Place(place)) ==
           if field == Line(Place(place)) && before != value then NonEmpty(Some(value)) else LineOf(meta, Place(place));
    ReleasedAt(meta.placeFilled, field, before, value, place);
  }

  lemma ReleasedAt(filled: Option<PlaceFilled>, field: MetadataField, before: string, value: string, place: PlaceField)
    ensures Listed(Released(filled, field, before, value), place) ==
            if field == Line(Place(place)) && value != "" then None
            else if field == Line(Place(place)) && before != "" then Some("")
            else Listed(filled, place)
  {
    if field.Line? && field.line.Place? {
      var at := field.line.place;
      if value != "" {
        ReleasesOnly(filled, at, place);
      } else if before != "" {
        ReleasesOnly(filled, at, place);
        DeclinesOnly(Release(filled, at), at, place);
      }
    }
  }

  lemma ReleasesOnly(filled: Option<PlaceFilled>, at: PlaceField, place: PlaceField)
    ensures Listed(Release(filled, at), place) == if place == at then None else Listed(filled, place)
  {
    if filled.Some? {
      assert Recorded(Record(filled.value, at, None), place) == if place == at then None
        else Recorded(filled.value, place);
    }
  }

  lemma DeclinesOnly(filled: Option<PlaceFilled>, at: PlaceField, place: PlaceField)
    ensures Listed(Decline(filled, at), place) == if place == at then Some("") else Listed(filled, place)
  {
  }

  // ---------------------------------------------------------------- a person's answer survives

  /** The field is a person's: a text the record does not list, or an emptiness it does. */
  predicate Answered(slot: Slot) {
    match slot.text
    case Some(text) => text != "" && slot.recorded.None?
    case None => slot.recorded == Some("")
  }

  /** What happens to a photo's places: a person writes a field, or the place names are filled. */
  datatype Event = Writes(field: MetadataField, value: string) | Fills(fill: PlaceFill)

  function Happens(meta: Metadata, event: Event): Metadata {
    match event
    case Writes(field, value) => PersonWrites(meta, field, value)
    case Fills(fill) => PutPlaceState(meta, FilledPlace(PlaceStateOf(meta), fill))
  }

  function Run(meta: Metadata, events: seq<Event>): Metadata {
    if events == [] then meta else Happens(Run(meta, events[..|events| - 1]), events[|events| - 1])
  }

  function SlotAfter(meta: Metadata, events: seq<Event>, place: PlaceField): Slot {
    SlotIn(PlaceStateOf(Run(meta, events)), place)
  }

  /** The same run, seen at one field. */
  function SlotHappens(slot: Slot, event: Event, place: PlaceField): Slot {
    match event
    case Writes(field, value) => if field == Line(Place(place)) then PersonSlot(slot, value) else slot
    case Fills(fill) => FillSlot(slot, TextOf(fill.names, place), fill.refresh).0
  }

  lemma HappensAt(meta: Metadata, event: Event, place: PlaceField)
    ensures SlotIn(PlaceStateOf(Happens(meta, event)), place) ==
              SlotHappens(SlotIn(PlaceStateOf(meta), place), event, place)
  {
    match event
    case Writes(field, value) => WriteAt(meta, field, value, place);
    case Fills(fill) =>
      FilledSlotAt(PlaceStateOf(meta), fill, place);
      PutThenRead(meta, FilledPlace(PlaceStateOf(meta), fill));
  }

  lemma RunAt(meta: Metadata, events: seq<Event>, n: nat, place: PlaceField)
    requires n < |events|
    ensures SlotAfter(meta, events[..n + 1], place) ==
              SlotHappens(SlotAfter(meta, events[..n], place), events[n], place)
  {
    assert events[..n + 1][..n] == events[..n];
    HappensAt(Run(meta, events[..n]), events[n], place);
  }

  /** A write of the field decides when it gives a text, or empties one. */
  predicate Decides(slot: Slot, event: Event, place: PlaceField) {
    event.Writes? && event.field == Line(Place(place)) && (event.value != "" || OrEmpty(slot.text) != "")
  }

  /** **A person's answer survives**: over any run of a person's writes and of fills, refreshes included, a place field
      says what the last write that decided it said, however many fills came after. */
  lemma {:induction false} AnswerSurvives(meta: Metadata, events: seq<Event>, at: nat, until: nat, place: PlaceField)
    requires at < until <= |events|
    requires Decides(SlotAfter(meta, events[..at], place), events[at], place)
    requires forall i | at < i < until :: !Decides(SlotAfter(meta, events[..i], place), events[i], place)
    ensures OrEmpty(SlotAfter(meta, events[..until], place).text) == events[at].value
    ensures Answered(SlotAfter(meta, events[..until], place))
  {
    hide SlotAfter;
    var last := until - 1;
    RunAt(meta, events, last, place);
    if at < last {
      AnswerSurvives(meta, events, at, last, place);
      AnsweredStays(SlotAfter(meta, events[..last], place), events[last], place);
    } else {
      DecidedIsAnswered(SlotAfter(meta, events[..at], place), events[at], place);
    }
  }

  /** Anything that does not decide a field leaves a person's answer as it is, and theirs. */
  lemma AnsweredStays(slot: Slot, event: Event, place: PlaceField)
    requires Answered(slot) && !Decides(slot, event, place)
    ensures SlotHappens(slot, event, place) == slot
  {
  }

  lemma DecidedIsAnswered(slot: Slot, event: Event, place: PlaceField)
    requires Decides(slot, event, place)
    ensures Answered(SlotHappens(slot, event, place))
    ensures OrEmpty(SlotHappens(slot, event, place).text) == event.value
  {
  }

  /** **A field nobody decided says what the last fill that could write it found**: over any run, from that fill on, as
      long as no person decides the field and no fill may write it again. */
  lemma {:induction false} SaysWhatWasFound(meta: Metadata, events: seq<Event>, at: nat, until: nat, place: PlaceField)
    requires at < until <= |events|
    requires FillWrites(SlotAfter(meta, events[..at], place), events[at])
    requires forall i | at < i < until ::
               && !Decides(SlotAfter(meta, events[..i], place), events[i], place)
               && !FillWrites(SlotAfter(meta, events[..i], place), events[i])
    ensures var slot, found := SlotAfter(meta, events[..until], place), TextOf(events[at].fill.names, place);
            OrEmpty(slot.text) == OrEmpty(found) && slot.recorded == found
  {
    hide SlotAfter;
    var last := until - 1;
    RunAt(meta, events, last, place);
    var slot := SlotAfter(meta, events[..last], place);
    if at < last {
      SaysWhatWasFound(meta, events, at, last, place);
      LeftAlone(slot, events[last], place, TextOf(events[at].fill.names, place));
    } else {
      RuleIsSlot(slot, TextOf(events[at].fill.names, place), events[at].fill.refresh);
    }
  }

  predicate FillWrites(slot: Slot, event: Event) { event.Fills? && MayWrite(slot, event.fill.refresh) }

  lemma LeftAlone(slot: Slot, event: Event, place: PlaceField, found: Option<string>)
    requires !Decides(slot, event, place) && !FillWrites(slot, event)
    requires OrEmpty(slot.text) == OrEmpty(found) && slot.recorded == found
    ensures var after := SlotHappens(slot, event, place);
            OrEmpty(after.text) == OrEmpty(found) && after.recorded == found
  {
  }

  /** **Filling twice with the same result changes nothing the second time.** */
  lemma FillIsIdempotent(state: PlaceState, fill: PlaceFill)
    ensures FilledPlace(FilledPlace(state, fill), fill) == FilledPlace(state, fill)
  {
    var once := FilledPlace(state, fill);
    forall p: PlaceField
      ensures FillField(StartOf(once), p, fill) == StartOf(once)
    {
      FilledSlotAt(state, fill, p);
      FillSlotTwice(SlotIn(state, p), TextOf(fill.names, p), fill.refresh);
      SlotUnchanged(StartOf(once), p, fill);
    }
    FillNothing(StartOf(once), ALL_PLACES, fill);
  }

  lemma FillSlotTwice(slot: Slot, found: Option<string>, refresh: bool)
    ensures var once := FillSlot(slot, found, refresh).0; FillSlot(once, found, refresh) == (once, false)
  {
  }

  lemma SlotUnchanged(filling: Filling, field: PlaceField, fill: PlaceFill)
    requires FillSlot(SlotOf(filling, field), TextOf(fill.names, field), fill.refresh) ==
               (SlotOf(filling, field), false)
    ensures FillField(filling, field, fill) == filling
  {
    PutSame(filling.texts, field);
    PutSame(filling.record.fields, field);
  }

  lemma {:induction false} FillNothing(filling: Filling, fields: seq<PlaceField>, fill: PlaceFill)
    requires forall p :: FillField(filling, p, fill) == filling
    ensures FillFields(filling, fields, fill) == filling
  {
    if fields != [] {
      FillNothing(filling, fields[..|fields| - 1], fill);
    }
  }
}
