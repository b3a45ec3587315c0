// What the coordinator makes of the messages about other applications' files, said of the records before and after:
// when a reading becomes the base, when it waits as a change, and when and with what an export may write.
module ExternalRecords {
  import opened Wrappers
  import opened KeywordIndex
  import opened ExternalFiles
  import opened ExternalWaits

  /** What was read is the base from then on, and nothing waits; of a photo that is not known nothing is kept. */
  predicate BecomesBase(s: State, t: State, photo: PhotoId, path: Path, reading: Reading) {
    if photo in s.known then t.rows == s.rows[photo := Row(path, reading.stat, reading.fields, None)]
    else t.rows == s.rows
  }

  /** What was read waits as a change, against the base there was, or against none. */
  predicate BecomesWaiting(s: State, t: State, photo: PhotoId, path: Path, reading: Reading) {
    && photo in t.rows && t.rows == s.rows[photo := t.rows[photo]]
    && t.rows[photo].path == path && t.rows[photo].pending == Some(Pending(reading.stat, reading.fields))
    && t.rows[photo].base == BaseOf(s, photo, path)
    && t.rows[photo].stat == if Tracked(s, photo, path) then s.rows[photo].stat else NO_FILE
  }

  predicate MayWrite(s: State, t: State, m: Message, wrote: Fields)
    requires m.Ask?
  {
    t.exports == s.exports[m.job := Granted(m.photo, m.path, m.existing, wrote)]
  }

  /** A reading of a scan: it waits when the file is tracked and it differs, and else is the base. */
  predicate SeenTaken(s: State, t: State, m: Message, rules: Rules)
    requires m.Seen?
  {
    && t.exports == s.exports
    && if Tracked(s, m.photo, m.path) && Differing(s, m.photo, BaseOf(s, m.photo, m.path), m.reading, rules)
       then BecomesWaiting(s, t, m.photo, m.path, m.reading)
       else BecomesBase(s, t, m.photo, m.path, m.reading)
  }

  /** The file is written anew: there is none, or it is replaced. */
  predicate Anew(m: Message)
    requires m.Ask?
  {
    m.existing.None? || !m.merging
  }

  /** A question of an export: what comes of it, by what the photo says and what the file holds. */
  predicate AskTaken(s: State, t: State, m: Message, answer: Answer, rules: Rules)
    requires m.Ask?
  {
    if m.photo !in s.said then t == s
    else if Anew(m) then
      && t.rows == s.rows
      && if m.existing.None? || answer.kept then MayWrite(s, t, m, rules.merged(s.said[m.photo], EMPTY))
         else t.exports == s.exports
    else
      var file, base := m.existing.value, BaseOf(s, m.photo, m.path);
      var merged := rules.merged(s.said[m.photo], file.fields);
      if Waits(s, m.photo, m.path) then t == s
      else if rules.differs(base, file.fields, s.said[m.photo]) then
        t.exports == s.exports && BecomesWaiting(s, t, m.photo, m.path, file)
      else if merged == file.fields && answer.same then
        t.exports == s.exports && BecomesBase(s, t, m.photo, m.path, file)
      else t.rows == s.rows && if answer.kept then MayWrite(s, t, m, merged) else t.exports == s.exports
  }

  /** **What a taken message leaves**: the records and the exports it is about, and nothing else moves. */
  predicate Taken(s: State, t: State, m: Message, answer: Answer, rules: Rules) {
    && t == s.(rows := t.rows, exports := t.exports)
    && match m
       case Seen(_, _, _) => SeenTaken(s, t, m, rules)
       case Ask(_, _, _, _, _) => AskTaken(s, t, m, answer, rules)
       case Written(photo, path, reading) => t.exports == s.exports && BecomesBase(s, t, photo, path, reading)
  }

  lemma AskIsTaken(s: State, m: Message, answer: Answer, rules: Rules)
    requires m.Ask? && s.said.Keys <= s.known
    ensures Taken(s, PrepareExport(s, m, answer, rules), m, answer, rules)
  {
  }

  lemma MessagesAreTaken(s: State, m: Message, answer: Answer, rules: Rules)
    requires s.said.Keys <= s.known
    ensures Taken(s, HandleMessage(s, m, answer, rules), m, answer, rules)
  {
    if m.Ask? {
      AskIsTaken(s, m, answer, rules);
      hide PrepareExport, Taken;
    }
  }
}
