// The catalogue's keyword rows: the full rebuild that says what they should be, the incremental update a change
// of the vocabulary makes, and why the second gives what the first would.
module KeywordIndex {
  import opened Wrappers
  import opened Text
  import opened Vocabulary
  import opened VocabularyEdits

  type PhotoId = nat

  /** A row of the `keyword` table. */
  datatype KeywordRow = KeywordRow(
    parent: Option<KeywordId>, name: string, path: string, exported: bool, synonyms: string)

  type Rows = map<KeywordId, KeywordRow>

  function RowOf(entry: KeywordEntry, path: string): KeywordRow {
    KeywordRow(entry.parent, entry.name, path, entry.exported, Join(entry.synonyms, '|'))
  }

  /** What a rebuild inserts for a vocabulary. */
  function BuildRows(tree: Tree): Rows {
    map k | k in tree :: RowOf(tree[k], PathOf(tree, k))
  }

  /** The rows say of every keyword its parent, its name, its printed path, whether it is exported and its synonyms,
      and there is no other row. */
  predicate Mirrors(tree: Tree, rows: Rows) {
    && rows.Keys == tree.Keys
    && forall k | k in rows ::
         && rows[k].parent == tree[k].parent && rows[k].name == tree[k].name && rows[k].path == PathOf(tree, k)
         && rows[k].exported == tree[k].exported && rows[k].synonyms == Join(tree[k].synonyms, '|')
         && (tree[k].synonyms != [] && Without(tree[k].synonyms, '|') ==>
               Split(rows[k].synonyms, '|') == tree[k].synonyms)
  }

  lemma BuiltRows(tree: Tree)
    ensures BuildRows(tree).Keys == tree.Keys
  {
  }

  /** The rows of a rebuild are the ones that say what the vocabulary says, and no others are. */
  lemma RebuildMirrors(tree: Tree, rows: Rows)
    ensures rows == BuildRows(tree) <==> Mirrors(tree, rows)
  {
    hide PathOf, Join, Split, Without;
    forall k | k in tree && tree[k].synonyms != [] && Without(tree[k].synonyms, '|')
      ensures Split(Join(tree[k].synonyms, '|'), '|') == tree[k].synonyms
    {
      SplitJoin(tree[k].synonyms, '|');
    }
    if Mirrors(tree, rows) {
      assert forall k | k in rows :: rows[k] == BuildRows(tree)[k];
    }
  }

  /** Every reference from a row to its parent is to a row: what the foreign key asks at a commit. */
  predicate ReferencesHold(rows: Rows) {
    forall k | k in rows :: rows[k].parent.Some? ==> rows[k].parent.value in rows
  }

  /** The full rebuild: one insert an entry, in whatever order the file has them, the references checked once at the
      commit. A missing parent fails it, though its keyword has a path, and so does an identifier that is there
      twice. */
  method Build(vocabulary: seq<KeywordEntry>) returns (built: Option<Rows>)
    ensures built == if Distinct(vocabulary) && NoMissingParent(ById(vocabulary)) then Some(BuildRows(ById(vocabulary)))
            else None
    ensures built.Some? ==> Mirrors(ById(vocabulary), built.value)
  {
    hide PathOf, Mirrors;
    RebuildMirrors(ById(vocabulary), BuildRows(ById(vocabulary)));
    ByIdNames(vocabulary);
    var paths := KeywordPaths(vocabulary);
    var inserted := InsertAll(vocabulary, paths);
    if inserted.None? {
      return None;
    }
    ByIdHolds(vocabulary);
    assert inserted.value == BuildRows(ById(vocabulary));
    built := if ReferencesHold(inserted.value) then inserted else None;
  }

  /** A row for each of the entries, each of another identifier, and no other row. */
  ghost predicate Inserted(entries: seq<KeywordEntry>, paths: map<KeywordId, string>, rows: Rows)
    requires forall e | e in entries :: e.id in paths
  {
    && Distinct(entries) && (forall k :: k in rows <==> exists i :: 0 <= i < |entries| && entries[i].id == k)
    && forall i | 0 <= i < |entries| :: rows[entries[i].id] == RowOf(entries[i], paths[entries[i].id])
  }

  lemma OneInsertMore(entries: seq<KeywordEntry>, paths: map<KeywordId, string>, rows: Rows, entry: KeywordEntry)
    requires (forall e | e in entries :: e.id in paths) && entry.id in paths && Inserted(entries, paths, rows)
    ensures entry.id in rows <==> !Distinct(entries + [entry])
    ensures entry.id !in rows ==>
              Inserted(entries + [entry], paths, rows[entry.id := RowOf(entry, paths[entry.id])])
  {
    hide RowOf;
    var more := entries + [entry];
    assert more[|entries|] == entry && forall i | 0 <= i < |entries| :: more[i] == entries[i];
    if entry.id in rows {
      var i :| 0 <= i < |entries| && entries[i].id == entry.id;
      assert more[i].id == more[|entries|].id;
    }
  }

  lemma PartsAreDistinct(entries: seq<KeywordEntry>, n: nat)
    requires n <= |entries|
    ensures Distinct(entries) ==> Distinct(entries[..n])
  {
  }

  /** The inserts of a rebuild, one an entry; the second of one identifier fails. */
  method InsertAll(vocabulary: seq<KeywordEntry>, paths: map<KeywordId, string>) returns (rows: Option<Rows>)
    requires forall e | e in vocabulary :: e.id in paths
    ensures rows.Some? <==> Distinct(vocabulary)
    ensures rows.Some? ==> Inserted(vocabulary, paths, rows.value)
  {
    hide Inserted, Distinct, RowOf;
    var inserted: Rows := map[];
    NothingInserted(paths);
    for n := 0 to |vocabulary|
      invariant Inserted(vocabulary[..n], paths, inserted)
    {
      OneInsertMore(vocabulary[..n], paths, inserted, vocabulary[n]);
      assert vocabulary[..n + 1] == vocabulary[..n] + [vocabulary[n]];
      if vocabulary[n].id in inserted {
        PartsAreDistinct(vocabulary, n + 1);
        return None;
      }
      inserted := inserted[vocabulary[n].id := RowOf(vocabulary[n], paths[vocabulary[n].id])];
    }
    assert vocabulary[..|vocabulary|] == vocabulary;
    InsertedOnce(vocabulary, paths, inserted);
    rows := Some(inserted);
  }

  lemma NothingInserted(paths: map<KeywordId, string>)
    ensures Inserted([], paths, map[])
  {
  }

  lemma InsertedOnce(entries: seq<KeywordEntry>, paths: map<KeywordId, string>, rows: Rows)
    requires (forall e | e in entries :: e.id in paths) && Inserted(entries, paths, rows)
    ensures Distinct(entries)
  {
  }

  // ---------------------------------------------------------------- what an update has to rewrite

  /** The keywords whose rows an update writes: the changed ones that still exist and everything under them. */
  predicate Rewritten(tree: Tree, deltas: seq<KeywordDelta>, direction: Direction, k: KeywordId) {
    k in tree && exists i :: 0 <= i < |deltas| && Target(deltas[i], direction).Some? && Under(tree, k, deltas[i].id)
  }

  predicate TakenOut(deltas: seq<KeywordDelta>, direction: Direction, k: KeywordId) {
    exists i :: 0 <= i < |deltas| && deltas[i].id == k && Target(deltas[i], direction).None?
  }

  /** The rows after an incremental update. */
  function UpdatedRows(rows: Rows, tree: Tree, deltas: seq<KeywordDelta>, direction: Direction): Rows {
    map k | k in rows.Keys + tree.Keys && !TakenOut(deltas, direction, k)
            && (k in rows || Rewritten(tree, deltas, direction, k)) ::
      if Rewritten(tree, deltas, direction, k) then RowOf(tree[k], PathOf(tree, k)) else rows[k]
  }

  /** No keyword outside the rewritten branches hangs from one that was taken out. */
  predicate RemovalsClosed(before: Tree, after: Tree, deltas: seq<KeywordDelta>, direction: Direction) {
    forall k | k in after && !Rewritten(after, deltas, direction, k) ::
      forall x | x in Chain(after, Some(k), {}) && x in after && after[x].parent.Some? :: 
        after[x].parent.value in before ==> after[x].parent.value in after
  }

  /** A keyword that is not rewritten has nothing changed on its chain. */
  lemma UntouchedChain(before: Tree, deltas: seq<KeywordDelta>, direction: Direction, k: KeywordId)
    requires Proper(deltas)
    requires var after := Overlay(before, deltas, direction);
             k in after && !Rewritten(after, deltas, direction, k)
    ensures var after := Overlay(before, deltas, direction);
            forall x | x in Chain(after, Some(k), {}) :: x in before && x in after && before[x] == after[x]
  {
    var after := Overlay(before, deltas, direction);
    ChainInTree(after, Some(k), {});
    forall x | x in Chain(after, Some(k), {})
      ensures x in before && before[x] == after[x]
    {
      OverlayAt(before, deltas, direction, x);
      if i :| 0 <= i < |deltas| && deltas[i].id == x {
        MeetsIsOnChain(after, Some(k), x, {});
        assert false;
      }
    }
  }

  lemma UntouchedRow(before: Tree, deltas: seq<KeywordDelta>, direction: Direction, k: KeywordId)
    requires Proper(deltas)
    requires var after := Overlay(before, deltas, direction);
             && k in after && !Rewritten(after, deltas, direction, k)
             && RemovalsClosed(before, after, deltas, direction)
    ensures k in before && PathOf(Overlay(before, deltas, direction), k) == PathOf(before, k)
    ensures Overlay(before, deltas, direction)[k] == before[k]
  {
    var after := Overlay(before, deltas, direction);
    UntouchedChain(before, deltas, direction, k);
    assert Chain(after, Some(k), {})[0] == k;
    SameChain(before, after, Some(k), {});
    SameSegments(before, after, Chain(after, Some(k), {}));
  }

  /** Where the removals are not closed, the path in the rows is longer than the one a rebuild gives. */
  lemma StaleRow(before: Tree, deltas: seq<KeywordDelta>, direction: Direction, k: KeywordId, x: KeywordId)
    requires Proper(deltas)
    requires var after := Overlay(before, deltas, direction);
             && k in after && !Rewritten(after, deltas, direction, k)
             && x in Chain(after, Some(k), {}) && x in after && after[x].parent.Some?
             && after[x].parent.value in before && after[x].parent.value !in after
    ensures k in before && |PathOf(before, k)| > |PathOf(Overlay(before, deltas, direction), k)|
  {
    var after := Overlay(before, deltas, direction);
    UntouchedChain(before, deltas, direction, k);
    assert Chain(after, Some(k), {})[0] == k;
    LongerChain(before, after, Some(k), {}, x);
    ChainInTree(before, Some(k), {});
    ChainInTree(after, Some(k), {});
    var long, short := Chain(before, Some(k), {}), Chain(after, Some(k), {});
    assert long == short + long[|short|..];
    SegmentsAppend(before, short, long[|short|..]);
    SameSegments(before, after, short);
    JoinLonger(Segments(before, long[|short|..]), Segments(after, short), '|');
  }

  lemma {:induction false} LongerChain(a: Tree, b: Tree, current: Option<KeywordId>, seen: set<KeywordId>, x: KeywordId)
    requires forall k | k in Chain(b, current, seen) :: k in a && k in b && a[k] == b[k]
    requires x in Chain(b, current, seen) && x in b && b[x].parent.Some?
    requires b[x].parent.value in a && b[x].parent.value !in b && b[x].parent.value !in seen
    ensures Chain(b, current, seen) < Chain(a, current, seen)
    decreases b.Keys - seen
  {
    var c := current.value;
    var above := Chain(b, b[c].parent, seen + {c});
    if x == c {
      assert above == [];
    } else {
      LongerChain(a, b, b[c].parent, seen + {c}, x);
    }
  }

  lemma {:induction false} SegmentsAppend(tree: Tree, lower: seq<KeywordId>, upper: seq<KeywordId>)
    requires forall k | k in lower + upper :: k in tree
    ensures forall k | k in lower || k in upper :: k in lower + upper
    ensures Segments(tree, lower + upper) == Segments(tree, upper) + Segments(tree, lower)
  {
    if lower == [] {
      assert lower + upper == upper;
    } else {
      assert (lower + upper)[1..] == lower[1..] + upper;
      assert forall k | k in lower[1..] + upper :: k in lower + upper;
      SegmentsAppend(tree, lower[1..], upper);
    }
  }

  lemma {:induction false} JoinLonger(first: seq<string>, rest: seq<string>, sep: char)
    requires first != [] && rest != []
    ensures |Join(first + rest, sep)| > |Join(rest, sep)|
  {
    var all := first + rest;
    assert all[..|all| - 1] == first + rest[..|rest| - 1];
    if |rest| > 1 {
      JoinLonger(first, rest[..|rest| - 1], sep);
    }
  }

  lemma RowAfterUpdate(before: Tree, deltas: seq<KeywordDelta>, direction: Direction, k: KeywordId)
    requires Proper(deltas)
    requires RemovalsClosed(before, Overlay(before, deltas, direction), deltas, direction)
    ensures var after := Overlay(before, deltas, direction);
            var updated := UpdatedRows(BuildRows(before), after, deltas, direction);
            && (k in updated <==> k in after)
            && (k in after ==> updated[k] == BuildRows(after)[k])
  {
    var after := Overlay(before, deltas, direction);
    OverlayAt(before, deltas, direction, k);
    if k in after && !Rewritten(after, deltas, direction, k) {
      UntouchedRow(before, deltas, direction, k);
    }
  }

  lemma StaleAfterUpdate(before: Tree, deltas: seq<KeywordDelta>, direction: Direction)
    requires Proper(deltas)
    requires !RemovalsClosed(before, Overlay(before, deltas, direction), deltas, direction)
    ensures var after := Overlay(before, deltas, direction);
            UpdatedRows(BuildRows(before), after, deltas, direction) != BuildRows(after)
  {
    var after := Overlay(before, deltas, direction);
    var k :| k in after && !Rewritten(after, deltas, direction, k) &&
      !forall x | x in Chain(after, Some(k), {}) && x in after && after[x].parent.Some? ::
      after[x].parent.value in before ==> after[x].parent.value in after;
    var x :| x in Chain(after, Some(k), {}) && x in after && after[x].parent.Some?
      && after[x].parent.value in before && after[x].parent.value !in after;
    StaleRow(before, deltas, direction, k, x);
    var updated := UpdatedRows(BuildRows(before), after, deltas, direction);
    if k in updated {
      assert updated[k].path == PathOf(before, k);
    }
  }

  lemma ClosedGivesRebuild(before: Tree, deltas: seq<KeywordDelta>, direction: Direction)
    requires Proper(deltas)
    requires RemovalsClosed(before, Overlay(before, deltas, direction), deltas, direction)
    ensures UpdatedRows(BuildRows(before), Overlay(before, deltas, direction), deltas, direction) ==
            BuildRows(Overlay(before, deltas, direction))
  {
    hide Overlay, RemovalsClosed, UpdatedRows, BuildRows, Proper;
    var rebuilt := BuildRows(Overlay(before, deltas, direction));
    var updated := UpdatedRows(BuildRows(before), Overlay(before, deltas, direction), deltas, direction);
    forall k
      ensures k in updated <==> k in rebuilt
      ensures k in rebuilt ==> updated[k] == rebuilt[k]
    {
      RowAfterUpdate(before, deltas, direction, k);
      BuiltRows(Overlay(before, deltas, direction));
    }
  }

  /** **The incremental update refines the rebuild.** From rows a rebuild would make, an update leaves the rows a
      rebuild would make of the new vocabulary exactly when no keyword outside the rewritten branches hangs from one
      that was taken out: for any vocabulary, cycles and missing parents included, any deltas and either direction. */
  lemma IncrementalIsRebuild(before: Tree, deltas: seq<KeywordDelta>, direction: Direction)
    requires Proper(deltas)
    ensures var after := Overlay(before, deltas, direction);
            UpdatedRows(BuildRows(before), after, deltas, direction) == BuildRows(after)
            <==> RemovalsClosed(before, after, deltas, direction)
  {
    if RemovalsClosed(before, Overlay(before, deltas, direction), deltas, direction) {
      ClosedGivesRebuild(before, deltas, direction);
    } else {
      StaleAfterUpdate(before, deltas, direction);
    }
  }

  // ---------------------------------------------------------------- the update, step by step

  /** How deep a keyword's path is: what the update sorts the rows by. */
  function Depth(tree: Tree, k: KeywordId): nat { Count(PathOf(tree, k), '|') }

  predicate PlainNames(tree: Tree) {
    forall k | k in tree :: '|' !in tree[k].name
  }

  lemma {:induction false} SegmentsPlain(tree: Tree, chain: seq<KeywordId>)
    requires PlainNames(tree) && forall k | k in chain :: k in tree
    ensures Without(Segments(tree, chain), '|')
  {
    if chain != [] {
      SegmentsPlain(tree, chain[1..]);
    }
  }

  lemma DepthIsChain(tree: Tree, k: KeywordId)
    requires PlainNames(tree) && k in tree
    ensures Depth(tree, k) + 1 == |Chain(tree, Some(k), {})|
  {
    ChainInTree(tree, Some(k), {});
    SegmentsPlain(tree, Chain(tree, Some(k), {}));
    CountJoin(PathNames(tree, k), '|');
  }

  /** A parent's path holds one separator less, so its row comes first. */
  lemma ParentIsShallower(tree: Tree, k: KeywordId)
    requires PlainNames(tree) && Acyclic(tree) && k in tree && tree[k].parent.Some? && tree[k].parent.value in tree
    ensures Depth(tree, tree[k].parent.value) < Depth(tree, k)
  {
    ChainStep(tree, k);
    DepthIsChain(tree, k);
    DepthIsChain(tree, tree[k].parent.value);
  }

  predicate SortedBy(ids: seq<KeywordId>, key: KeywordId -> nat) {
    forall i, j | 0 <= i < j < |ids| :: key(ids[i]) <= key(ids[j])
  }

  /** `id` at its place, after the ones of the same key. */
  function Insert(sorted: seq<KeywordId>, id: KeywordId, key: KeywordId -> nat): seq<KeywordId> {
    if sorted == [] || key(sorted[|sorted| - 1]) <= key(id) then sorted + [id]
    else Insert(sorted[..|sorted| - 1], id, key) + [sorted[|sorted| - 1]]
  }

  /** The stable sort by a key. */
  function SortByKey(ids: seq<KeywordId>, key: KeywordId -> nat): seq<KeywordId> {
    if ids == [] then [] else Insert(SortByKey(ids[..|ids| - 1], key), ids[|ids| - 1], key)
  }

  lemma {:induction false} InsertFacts(sorted: seq<KeywordId>, id: KeywordId, key: KeywordId -> nat)
    requires SortedBy(sorted, key)
    ensures forall x :: x in Insert(sorted, id, key) <==> x in sorted || x == id
    ensures SortedBy(Insert(sorted, id, key), key)
  {
    if sorted != [] && key(sorted[|sorted| - 1]) > key(id) {
      var front, last := sorted[..|sorted| - 1], sorted[|sorted| - 1];
      InsertFacts(front, id, key);
      assert sorted == front + [last];
      assert forall x | x in Insert(front, id, key) :: key(x) <= key(last);
    }
  }

  lemma {:induction false} SortFacts(ids: seq<KeywordId>, key: KeywordId -> nat)
    ensures forall x :: x in SortByKey(ids, key) <==> x in ids
    ensures SortedBy(SortByKey(ids, key), key)
  {
    if ids != [] {
      var front, last := ids[..|ids| - 1], ids[|ids| - 1];
      SortFacts(front, key);
      InsertFacts(SortByKey(front, key), last, key);
      assert ids == front + [last];
    }
  }

  /** The catalogue's tables of keywords and of the photos that carry them. */
  class Catalogue {
    var keyword: Rows
    var photoKeyword: set<(PhotoId, KeywordId)>

    constructor (built: Rows)
      ensures keyword == built && photoKeyword == {}
    {
      keyword := built;
      photoKeyword := {};
    }

    /** Inserts or updates one keyword's row; refused when its parent has no row (the foreign key is checked at
        once). */
    method ApplyKeyword(entry: KeywordEntry, path: string) returns (ok: bool)
      modifies this`keyword
      ensures ok <==> entry.parent.None? || entry.parent.value in old(keyword) || entry.parent.value == entry.id
      ensures keyword == if ok then old(keyword)[entry.id := RowOf(entry, path)] else old(keyword)
    {
      ok := entry.parent.None? || entry.parent.value in keyword || entry.parent.value == entry.id;
      if ok {
        keyword := keyword[entry.id := RowOf(entry, path)];
      }
    }

    /** Removes keywords and what carries them, in one transaction whose references are checked at the commit. */
    method RemoveKeywords(ids: seq<KeywordId>) returns (ok: bool)
      modifies this
      ensures ok <==> ReferencesHold(old(keyword) - set k | k in ids)
      ensures keyword == if ok then old(keyword) - (set k | k in ids) else old(keyword)
      ensures photoKeyword ==
              if ok then set c | c in old(photoKeyword) && c.1 !in ids :: c else old(photoKeyword)
    {
      var rows, carried := keyword, photoKeyword;
      for n := 0 to |ids|
        invariant rows == keyword - set k | k in ids[..n]
        invariant carried == set c | c in photoKeyword && c.1 !in ids[..n] :: c
        invariant keyword == old(keyword) && photoKeyword == old(photoKeyword)
      {
        assert ids[..n + 1] == ids[..n] + [ids[n]];
        carried := set c | c in carried && c.1 != ids[n] :: c;
        rows := rows - {ids[n]};
      }
      assert ids[..|ids|] == ids;
      ok := ReferencesHold(rows);
      if ok {
        keyword, photoKeyword := rows, carried;
      }
    }

    /** Replaces the keywords a photo carries; refused when one of them has no row. */
    method ApplyPhotoKeywords(photo: PhotoId, ids: seq<KeywordId>) returns (ok: bool)
      modifies this`photoKeyword
      ensures ok <==> forall k | k in ids :: k in keyword
      ensures photoKeyword ==
              if ok then (set c | c in old(photoKeyword) && c.0 != photo :: c) + (set k | k in ids :: (photo, k))
              else old(photoKeyword)
    {
      var carried := set c | c in photoKeyword && c.0 != photo :: c;
      ghost var others := carried;
      for n := 0 to |ids|
        invariant carried == others + set k | k in ids[..n] :: (photo, k)
        invariant forall k | k in ids[..n] :: k in keyword
        invariant photoKeyword == old(photoKeyword)
      {
        if ids[n] !in keyword {
          return false;
        }
        assert ids[..n + 1] == ids[..n] + [ids[n]];
        carried := carried + {(photo, ids[n])};
      }
      assert ids[..|ids|] == ids;
      ok := true;
      photoKeyword := carried;
    }

    /** The catalogue's part of a change of the vocabulary: the rows of the changed keywords and of everything under
        them, parents first, then the rows of the ones that are gone. In a well-formed vocabulary no reference is
        ever refused and the rows are what a rebuild would make. */
    method Follow(ghost before: Tree, vocabulary: seq<KeywordEntry>, deltas: seq<KeywordDelta>, direction: Direction)
      returns (ok: bool, changed: seq<KeywordId>)
      requires keyword == BuildRows(before)
      requires Distinct(vocabulary) && Proper(deltas) && ById(vocabulary) == Overlay(before, deltas, direction)
      requires var tree := ById(vocabulary); NoMissingParent(tree) && Acyclic(tree) && PlainNames(tree)
      modifies this
      ensures ok && keyword == BuildRows(ById(vocabulary)) && Mirrors(ById(vocabulary), keyword)
      ensures forall k :: k in changed <==> Rewritten(ById(vocabulary), deltas, direction, k)
      ensures photoKeyword == set c | c in old(photoKeyword) && !TakenOut(deltas, direction, c.1) :: c
    {
      hide Acyclic, NoMissingParent, PlainNames, ReferencesHold, UpdatedRows, WrittenRows, BuildRows, ParentWritten,
        Mirrors;
      ghost var tree := ById(vocabulary);
      RebuildMirrors(tree, BuildRows(tree));
      var removed := Removed(deltas, direction);
      RemovedIsTakenOut(deltas, direction);
      ByIdHolds(vocabulary);
      changed := ChangedBranches(vocabulary, deltas, direction);
      var paths := KeywordPaths(vocabulary);
      var depth := (k: KeywordId) => if k in paths then Count(paths[k], '|') else 0;
      var order := SortByKey(changed, depth);
      SortFacts(changed, depth);
      forall n | 0 <= n < |order| ensures ParentWritten(keyword, tree, order, n) {
        ParentRowExists(before, deltas, direction, order, n);
      }
      WriteRows(ById(vocabulary), order, paths);
      UpdateIsWritten(before, deltas, direction, order, removed);
      NothingDangles(before, deltas, direction);
      ClosedGivesRebuild(before, deltas, direction);
      ok := RemoveKeywords(removed);
    }

    /** Writes rows in an order that puts a parent before its children. */
    method WriteRows(byId: Tree, order: seq<KeywordId>, paths: map<KeywordId, string>)
      requires forall k | k in order :: k in byId && byId[k].id == k && k in paths && paths[k] == PathOf(byId, k)
      requires forall n | 0 <= n < |order| :: ParentWritten(keyword, byId, order, n)
      modifies this`keyword
      ensures keyword == WrittenRows(old(keyword), byId, order)
    {
      for n := 0 to |order|
        invariant keyword == WrittenRows(old(keyword), byId, order[..n])
      {
        assert ParentWritten(old(keyword), byId, order, n);
        var wrote := ApplyKeyword(byId[order[n]], paths[order[n]]);
        WroteOne(old(keyword), byId, order, n);
      }
      assert order[..|order|] == order;
    }
  }

  /** When the turn of a row comes, its parent has one. */
  predicate ParentWritten(rows: Rows, tree: Tree, order: seq<KeywordId>, n: nat)
    requires n < |order|
  {
    && order[n] in tree
    && (tree[order[n]].parent.Some? ==> tree[order[n]].parent.value in WrittenRows(rows, tree, order[..n]))
  }

  function Removed(deltas: seq<KeywordDelta>, direction: Direction): seq<KeywordId> {
    if deltas == [] then []
    else
      var last := deltas[|deltas| - 1];
      Removed(deltas[..|deltas| - 1], direction) + if Target(last, direction).None? then [last.id] else []
  }

  lemma {:induction false} RemovedIsTakenOut(deltas: seq<KeywordDelta>, direction: Direction)
    ensures forall k :: k in Removed(deltas, direction) <==> TakenOut(deltas, direction, k)
  {
    if deltas != [] {
      var front := deltas[..|deltas| - 1];
      RemovedIsTakenOut(front, direction);
      assert deltas == front + [deltas[|deltas| - 1]];
    }
  }

  /** The keywords to rewrite, each once. */
  method ChangedBranches(vocabulary: seq<KeywordEntry>, deltas: seq<KeywordDelta>, direction: Direction)
    returns (changed: seq<KeywordId>)
    requires Distinct(vocabulary)
    ensures forall k :: k in changed <==> Rewritten(ById(vocabulary), deltas, direction, k)
  {
    changed := [];
    for n := 0 to |deltas|
      invariant forall k :: k in changed <==> Rewritten(ById(vocabulary), deltas[..n], direction, k)
    {
      if Target(deltas[n], direction).Some? {
        var branch := DescendantsOf(vocabulary, deltas[n].id);
        ghost var had := changed;
        for i := 0 to |branch|
          invariant forall k :: k in changed <==> k in had || k in branch[..i]
        {
          if branch[i] !in changed {
            changed := changed + [branch[i]];
          }
        }
      }
    }
    assert deltas[..|deltas|] == deltas;
  }

  function WrittenRows(rows: Rows, tree: Tree, written: seq<KeywordId>): Rows {
    map k | k in rows.Keys + tree.Keys && (k in rows || k in written) ::
      if k in written && k in tree then RowOf(tree[k], PathOf(tree, k)) else rows[k]
  }

  lemma WroteOne(rows: Rows, tree: Tree, order: seq<KeywordId>, n: nat)
    requires n < |order| && forall k | k in order :: k in tree
    ensures WrittenRows(rows, tree, order[..n + 1]) ==
            WrittenRows(rows, tree, order[..n])[order[n] := RowOf(tree[order[n]], PathOf(tree, order[n]))]
  {
    assert order[..n + 1] == order[..n] + [order[n]];
  }

  /** In depth order a row's parent is there in time: it is shallower, or its row was not touched. */
  lemma ParentRowExists(before: Tree, deltas: seq<KeywordDelta>, direction: Direction, order: seq<KeywordId>, n: nat)
    requires Proper(deltas) && n < |order|
    requires var tree := Overlay(before, deltas, direction);
             && NoMissingParent(tree) && Acyclic(tree) && PlainNames(tree)
             && (forall k :: k in order <==> Rewritten(tree, deltas, direction, k))
             && forall i, j | 0 <= i < j < |order| :: Depth(tree, order[i]) <= Depth(tree, order[j])
    ensures ParentWritten(BuildRows(before), Overlay(before, deltas, direction), order, n)
  {
    var tree := Overlay(before, deltas, direction);
    var k := order[n];
    assert Rewritten(tree, deltas, direction, k);
    if tree[k].parent.Some? {
      var p := tree[k].parent.value;
      if Rewritten(tree, deltas, direction, p) {
        ParentIsShallower(tree, k);
        var i :| 0 <= i < |order| && order[i] == p;
        assert i < n;
        assert order[..n][i] == p;
      } else {
        UntouchedChain(before, deltas, direction, p);
        assert Chain(tree, Some(p), {})[0] == p;
      }
    }
  }

  lemma UpdateIsWritten(before: Tree, deltas: seq<KeywordDelta>, direction: Direction,
                        order: seq<KeywordId>, removed: seq<KeywordId>)
    requires forall k :: k in order <==> Rewritten(Overlay(before, deltas, direction), deltas, direction, k)
    requires forall k :: k in removed <==> TakenOut(deltas, direction, k)
    ensures WrittenRows(BuildRows(before), Overlay(before, deltas, direction), order) - (set k | k in removed) ==
            UpdatedRows(BuildRows(before), Overlay(before, deltas, direction), deltas, direction)
  {
  }

  lemma NothingDangles(before: Tree, deltas: seq<KeywordDelta>, direction: Direction)
    requires Proper(deltas) && NoMissingParent(Overlay(before, deltas, direction))
    ensures RemovalsClosed(before, Overlay(before, deltas, direction), deltas, direction)
    ensures ReferencesHold(BuildRows(Overlay(before, deltas, direction)))
  {
  }
}
