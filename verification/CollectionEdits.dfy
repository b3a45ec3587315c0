// The edits of the collections: what each checks first, the before and after states it records, and that the
// collections stay a forest whose siblings differ.
module CollectionEdits {
  import opened Wrappers
  import opened Text
  import opened KeywordIndex
  import opened VocabularyEdits
  import opened Journal
  import opened Worlds
  import opened CollectionTree
  import opened CollectionBranch

  type Collections = map<CollectionId, Collection>

  datatype CollectionRefusal =
    CollectionName | CollectionNameTaken | CollectionNotFound | CollectionCycle | CollectionUsed | UnknownPhoto

  datatype CollectionPlan = NotAllowed(why: CollectionRefusal) | AsItIs | Changing(deltas: seq<CollectionDelta>)

  /** The rows of the manual collections; the other kinds are somebody else's. */
  function ManualRows(cs: Collections): set<Row> { set k | k in cs && cs[k].manual :: Row(k, cs[k].parent, cs[k].name) }

  /** The collections as they are listed: the ones a tree order reaches, a parent first. */
  ghost predicate Listing(cs: Collections, rows: seq<Row>) {
    && DistinctIds(rows) && ParentsFirst(rows) && Among(rows) <= ManualRows(cs)
    && (NoLoop(ManualRows(cs)) ==> Among(rows) == ManualRows(cs))
  }

  /** What the edits keep: a forest with no missing parent, whose siblings have different names whatever the case. */
  ghost predicate RowsFormed(rows: set<Row>, fold: string -> string) {
    && OneRowEach(rows) && NoLoop(rows)
    && (forall r | r in rows && r.parent.Some? :: r.parent.value in IdsIn(rows))
    && forall a, b | a in rows && b in rows && a != b && a.parent == b.parent :: fold(a.name) != fold(b.name)
  }

  ghost predicate Formed(cs: Collections, fold: string -> string) {
    (forall k | k in cs :: cs[k].id == k) && RowsFormed(ManualRows(cs), fold)
  }

  // ---------------------------------------------------------------- the listing

  method ListCollections(cs: Collections, leq: (Row, Row) -> bool) returns (rows: seq<Row>)
    requires TotalOrder(leq)
    ensures Listing(cs, rows)
  {
    var all := RowsInOrder(ManualRows(cs));
    var out := InTreeOrder(all, leq);
    ListingParentsFirst(all, out, leq);
    ListingIsPermutation(all, out, leq);
    rows := RowsOf(out);
    if NoLoop(ManualRows(cs)) {
      SameRows(rows, all);
    }
  }

  lemma SameRows(a: seq<Row>, b: seq<Row>)
    requires multiset(a) == multiset(b)
    ensures Among(a) == Among(b)
  {
    forall r ensures r in a <==> r in b {
      assert r in multiset(a) <==> r in multiset(b);
    }
  }

  /** The rows of the table, in some order. */
  method RowsInOrder(rows: set<Row>) returns (all: seq<Row>)
    requires OneRowEach(rows)
    ensures DistinctIds(all) && Among(all) == rows
  {
    all := [];
    var rest := rows;
    while rest != {}
      invariant rest <= rows && DistinctIds(all) && Among(all) == rows - rest
      decreases rest
    {
      var r :| r in rest;
      forall i | 0 <= i < |all| ensures all[i].id != r.id {
        assert all[i] in Among(all);
      }
      assert Among(all + [r]) == Among(all) + {r};
      all := all + [r];
      rest := rest - {r};
    }
  }

  // ---------------------------------------------------------------- the plans

  predicate Listed(rows: seq<Row>, id: CollectionId) { exists i :: 0 <= i < |rows| && rows[i].id == id }

  predicate FreeAmong(rows: seq<Row>, name: string, parent: Option<CollectionId>, except: Option<CollectionId>,
                      fold: string -> string) {
    forall i | 0 <= i < |rows| && rows[i].parent == parent && Some(rows[i].id) != except ::
      fold(rows[i].name) != fold(name)
  }

  /** A manual collection's state. */
  predicate IsManual(cs: Collections, id: CollectionId) { id in cs && cs[id].manual }

  /** The photos without repeats, in their order. */
  function Distinctly(photos: seq<PhotoId>): seq<PhotoId> {
    if photos == [] then []
    else
      var front, last := Distinctly(photos[..|photos| - 1]), photos[|photos| - 1];
      if last in front then front else front + [last]
  }

  function AsMembers(photos: seq<PhotoId>): (members: seq<MemberRef>)
    ensures |members| == |photos| && forall i | 0 <= i < |photos| :: members[i] == PhotoMember(photos[i])
  {
    seq(|photos|, i requires 0 <= i < |photos| => PhotoMember(photos[i]))
  }

  predicate Holds(members: seq<MemberRef>, photo: PhotoId) { exists m :: m in members && m.photo == photo }

  function One(id: CollectionId, before: Option<Collection>, after: Collection): CollectionPlan {
    Changing([CollectionDelta(id, before, Some(after))])
  }

  function PlanCreateCollection(cs: Collections, rows: seq<Row>, name: string, parent: Option<CollectionId>,
                                id: CollectionId, photos: seq<PhotoId>, known: set<PhotoId>,
                                fold: string -> string): CollectionPlan
  {
    var checked := Trim(name);
    if checked == "" then NotAllowed(CollectionName)
    else if parent.Some? && !Listed(rows, parent.value) then NotAllowed(CollectionNotFound)
    else if !FreeAmong(rows, checked, parent, None, fold) then NotAllowed(CollectionNameTaken)
    else if id in cs then NotAllowed(CollectionUsed)
    else if exists p :: p in photos && p !in known then NotAllowed(UnknownPhoto)
    else One(id, None, Collection(id, checked, true, parent, AsMembers(Distinctly(photos))))
  }

  function PlanRenameCollection(cs: Collections, rows: seq<Row>, id: CollectionId, newName: string,
                                fold: string -> string)
    : CollectionPlan
  {
    var checked := Trim(newName);
    if checked == "" then NotAllowed(CollectionName)
    else if !IsManual(cs, id) then NotAllowed(CollectionNotFound)
    else if !FreeAmong(rows, checked, cs[id].parent, Some(id), fold) then NotAllowed(CollectionNameTaken)
    else if cs[id].name == checked then AsItIs
    else One(id, Some(cs[id]), cs[id].(name := checked))
  }

  function PlanMoveCollection(cs: Collections, rows: seq<Row>, branch: seq<CollectionId>, id: CollectionId,
                              newParent: Option<CollectionId>, fold: string -> string): CollectionPlan
  {
    if !IsManual(cs, id) then NotAllowed(CollectionNotFound)
    else if cs[id].parent == newParent then AsItIs
    else if newParent.Some? && !Listed(rows, newParent.value) then NotAllowed(CollectionNotFound)
    else if newParent.Some? && newParent.value in branch then NotAllowed(CollectionCycle)
    else if !FreeAmong(rows, cs[id].name, newParent, Some(id), fold) then NotAllowed(CollectionNameTaken)
    else One(id, Some(cs[id]), cs[id].(parent := newParent))
  }

  function Removals(cs: Collections, branch: seq<CollectionId>): seq<CollectionDelta> {
    if branch == [] then []
    else
      var last := branch[|branch| - 1];
      Removals(cs, branch[..|branch| - 1])
      + [CollectionDelta(last, if last in cs then Some(cs[last]) else None, None)]
  }

  function PlanDeleteCollection(cs: Collections, rows: seq<Row>, branch: seq<CollectionId>,
                                id: CollectionId): CollectionPlan {
    if !Listed(rows, id) then NotAllowed(CollectionNotFound) else Changing(Removals(cs, branch))
  }

  function PlanAddPhotos(cs: Collections, id: CollectionId, photos: seq<PhotoId>, known: set<PhotoId>): CollectionPlan {
    if !IsManual(cs, id) then NotAllowed(CollectionNotFound)
    else if exists p :: p in photos && p !in known then NotAllowed(UnknownPhoto)
    else
      var more := Filter(Distinctly(photos), p => !Holds(cs[id].members, p));
      if more == [] then AsItIs
      else One(id, Some(cs[id]), cs[id].(members := cs[id].members + AsMembers(more)))
  }

  function PlanTakeOutPhotos(cs: Collections, id: CollectionId, photos: seq<PhotoId>): CollectionPlan {
    if !IsManual(cs, id) then NotAllowed(CollectionNotFound)
    else
      var left := Filter(cs[id].members, (m: MemberRef) => !(m.PhotoMember? && m.photo in photos));
      if |left| == |cs[id].members| then AsItIs else One(id, Some(cs[id]), cs[id].(members := left))
  }

  // ---------------------------------------------------------------- the deltas go both ways

  /** The deltas name each collection once and say what it was. */
  predicate SaysWhatWas(cs: Collections, deltas: seq<CollectionDelta>) {
    && (forall i, j | 0 <= i < j < |deltas| :: deltas[i].id != deltas[j].id)
    && forall d | d in deltas :: if d.id in cs then d.before == Some(cs[d.id]) else d.before == None
  }

  lemma {:induction false} PutAt(cs: Collections, deltas: seq<CollectionDelta>, direction: Direction, k: CollectionId)
    requires forall i, j | 0 <= i < j < |deltas| :: deltas[i].id != deltas[j].id
    ensures (forall i | 0 <= i < |deltas| :: deltas[i].id != k) ==>
              var after := PutCollections(cs, deltas, direction);
              (k in after <==> k in cs) && (k in after ==> after[k] == cs[k])
    ensures forall i | 0 <= i < |deltas| && deltas[i].id == k ::
              var after := PutCollections(cs, deltas, direction);
              var c := Pick(direction, deltas[i].before, deltas[i].after);
              (k in after <==> c.Some?) && (c.Some? ==> after[k] == c.value)
  {
    if deltas != [] {
      PutAt(cs, deltas[..|deltas| - 1], direction, k);
    }
  }

  /** **Collections go back exactly**: the states before, put back, are the collections before. */
  lemma CollectionsGoBack(cs: Collections, deltas: seq<CollectionDelta>)
    requires SaysWhatWas(cs, deltas)
    ensures PutCollections(PutCollections(cs, deltas, Redo), deltas, Undo) == cs
  {
    var after := PutCollections(cs, deltas, Redo);
    var back := PutCollections(after, deltas, Undo);
    forall k ensures k in back <==> k in cs ensures k in cs ==> k in back && back[k] == cs[k] {
      PutAt(cs, deltas, Redo, k);
      PutAt(after, deltas, Undo, k);
      if i :| 0 <= i < |deltas| && deltas[i].id == k {
        assert deltas[i] in deltas;
      }
    }
  }

  // ---------------------------------------------------------------- what the edits keep

  /** What a plan promises: it says what was, and it keeps well-formed collections well formed. */
  ghost predicate KeepsCollections(cs: Collections, plan: CollectionPlan, fold: string -> string) {
    plan.Changing? ==>
      && plan.deltas != [] && SaysWhatWas(cs, plan.deltas)
      && (Formed(cs, fold) ==> Formed(PutCollections(cs, plan.deltas, Redo), fold))
  }

  lemma PutOne(cs: Collections, id: CollectionId, before: Option<Collection>, after: Collection)
    ensures PutCollections(cs, [CollectionDelta(id, before, Some(after))], Redo) == cs[id := after]
  {
    assert [CollectionDelta(id, before, Some(after))][..0] == [];
  }

  function RowAt(id: CollectionId, c: Collection): Row { Row(id, c.parent, c.name) }

  lemma RowsPut(cs: Collections, id: CollectionId, c: Collection)
    requires c.manual && (id in cs ==> cs[id].manual)
    ensures ManualRows(cs[id := c]) ==
            (if id in cs then ManualRows(cs) - {RowAt(id, cs[id])} else ManualRows(cs)) + {RowAt(id, c)}
    ensures id in cs ==> RowAt(id, cs[id]) in ManualRows(cs)
    ensures id !in cs ==> id !in IdsIn(ManualRows(cs))
  {
    var after := cs[id := c];
    forall k | k in cs && cs[k].manual && k != id ensures RowAt(k, cs[k]) in ManualRows(after) {
      assert after[k] == cs[k];
    }
    assert after[id] == c;
    assert RowAt(id, c) in ManualRows(after);
  }

  /** A loop among the rows with a new one would be a loop without it. */
  lemma NewRowMakesNoLoop(rows: set<Row>, row: Row, inside: set<CollectionId>)
    requires NoLoop(rows) && row.id !in IdsIn(rows) && (row.parent.Some? ==> row.parent.value in IdsIn(rows))
    requires forall r | r in rows && r.parent.Some? :: r.parent.value in IdsIn(rows)
    ensures !Loop(rows + {row}, inside)
  {
    if Loop(rows + {row}, inside) {
      LoopWithout(rows, row, inside);
    }
  }

  lemma LoopWithout(rows: set<Row>, row: Row, inside: set<CollectionId>)
    requires row.id !in IdsIn(rows) && (row.parent.Some? ==> row.parent.value in IdsIn(rows))
    requires forall r | r in rows && r.parent.Some? :: r.parent.value in IdsIn(rows)
    requires Loop(rows + {row}, inside)
    ensures Loop(rows, inside - {row.id})
  {
    hide IdsIn, Loop;
    MoreIds(rows, row);
    var left := inside - {row.id};
    forall r | r in rows && r.id in left ensures r.parent.Some? && r.parent.value in left {
      var above := LoopParent(rows + {row}, inside, r);
    }
    var r := SomeOf(rows + {row}, inside);
    if r == row {
      var above := LoopParent(rows + {row}, inside, row);
      assert above.id in left;
    } else {
      assert r.id in left;
    }
    InLoop(rows + {row}, inside);
    IsLoop(rows, left);
  }

  lemma SomeOf(rows: set<Row>, inside: set<CollectionId>) returns (r: Row)
    requires Loop(rows, inside)
    ensures r in rows && r.id in inside
  {
    var id :| id in inside;
    r :| r in rows && r.id == id;
  }

  lemma InLoop(rows: set<Row>, inside: set<CollectionId>)
    requires Loop(rows, inside)
    ensures inside <= IdsIn(rows)
  {
  }

  lemma CreatedKeeps(rows: set<Row>, row: Row, fold: string -> string)
    requires RowsFormed(rows, fold) && row.id !in IdsIn(rows) && (row.parent.Some? ==> row.parent.value in IdsIn(rows))
    requires forall r | r in rows && r.parent == row.parent :: fold(r.name) != fold(row.name)
    ensures RowsFormed(rows + {row}, fold)
  {
    hide Loop;
    forall inside ensures !Loop(rows + {row}, inside) {
      NewRowMakesNoLoop(rows, row, inside);
    }
    MoreIds(rows, row);
    forall a, b | a in rows + {row} && b in rows + {row} && a.id == b.id ensures a == b {
      if a in rows && b in rows {
        assert a == b;
      }
    }
  }

  lemma MoreIds(rows: set<Row>, row: Row)
    ensures IdsIn(rows + {row}) == IdsIn(rows) + {row.id}
    ensures forall r | r in rows :: r.id in IdsIn(rows)
  {
    forall r | r in rows ensures r in rows + {row} { }
    assert row in rows + {row};
  }

  /** A row replaced by one with the same identifier. */
  lemma ReplacedKeeps(rows: set<Row>, row: Row, after: Row, fold: string -> string)
    requires RowsFormed(rows, fold) && row in rows && after.id == row.id
    requires NoLoop(rows - {row} + {after}) && (after.parent.Some? ==> after.parent.value in IdsIn(rows))
    requires forall r | r in rows && r != row && r.parent == after.parent :: fold(r.name) != fold(after.name)
    ensures RowsFormed(rows - {row} + {after}, fold)
  {
    hide Loop, NoLoop;
    var more := rows - {row} + {after};
    forall a, b | a in more && b in more && a.id == b.id ensures a == b {
    }
  }

  /** Renaming leaves the parents, so it makes no loop. */
  lemma RenamedMakesNoLoop(rows: set<Row>, row: Row, after: Row)
    requires NoLoop(rows) && row in rows && after == row.(name := after.name)
    ensures NoLoop(rows - {row} + {after})
  {
    forall inside ensures !Loop(rows - {row} + {after}, inside) {
      if Loop(rows - {row} + {after}, inside) {
        LoopRenamed(rows, row, after, inside);
      }
    }
  }

  lemma LoopRenamed(rows: set<Row>, row: Row, after: Row, inside: set<CollectionId>)
    requires row in rows && after == row.(name := after.name) && Loop(rows - {row} + {after}, inside)
    ensures Loop(rows, inside)
  {
    forall r | r in rows && r.id in inside ensures r.parent.Some? && r.parent.value in inside {
      if r == row {
        assert after in rows - {row} + {after};
      } else {
        assert r in rows - {row} + {after};
      }
    }
  }

  /** Taking out a branch leaves no loop, no missing parent and no clash. */
  lemma RemovedKeeps(rows: set<Row>, gone: set<CollectionId>, fold: string -> string)
    requires RowsFormed(rows, fold)
    requires forall r | r in rows && r.parent.Some? && r.parent.value in gone :: r.id in gone
    ensures RowsFormed((set r | r in rows && r.id !in gone), fold)
  {
    var left := set r | r in rows && r.id !in gone;
    forall inside ensures !Loop(left, inside) {
      if Loop(left, inside) {
        LoopInMore(left, rows, inside);
      }
    }
    hide Loop, NoLoop;
    forall r | r in left && r.parent.Some? ensures r.parent.value in IdsIn(left) {
      var above :| above in rows && above.id == r.parent.value;
      assert above in left;
    }
  }

  lemma LoopInMore(some: set<Row>, rows: set<Row>, inside: set<CollectionId>)
    requires some <= rows && OneRowEach(rows) && Loop(some, inside)
    ensures Loop(rows, inside)
  {
    forall r | r in rows && r.id in inside ensures r.parent.Some? && r.parent.value in inside {
      var x :| x in some && x.id == r.id;
    }
  }

  lemma ListedHolds(cs: Collections, rows: seq<Row>, id: CollectionId, fold: string -> string)
    requires Listing(cs, rows) && Formed(cs, fold)
    ensures Listed(rows, id) <==> id in IdsIn(ManualRows(cs))
  {
    if Listed(rows, id) {
      var i :| 0 <= i < |rows| && rows[i].id == id;
      assert rows[i] in Among(rows);
    }
    forall r | r in ManualRows(cs) && r.id == id ensures Listed(rows, id) {
      assert r in Among(rows);
      var i :| 0 <= i < |rows| && rows[i] == r;
    }
  }

  lemma FreeHolds(cs: Collections, rows: seq<Row>, name: string, parent: Option<CollectionId>,
                  except: Option<CollectionId>, fold: string -> string)
    requires Listing(cs, rows) && Formed(cs, fold) && FreeAmong(rows, name, parent, except, fold)
    ensures forall r | r in ManualRows(cs) && r.parent == parent && Some(r.id) != except :: fold(r.name) != fold(name)
  {
    forall r | r in ManualRows(cs) && r.parent == parent && Some(r.id) != except ensures fold(r.name) != fold(name) {
      assert r in Among(rows);
      var i :| 0 <= i < |rows| && rows[i] == r;
    }
  }

  lemma CreatePlanKeeps(cs: Collections, rows: seq<Row>, name: string, parent: Option<CollectionId>, id: CollectionId,
                        photos: seq<PhotoId>, known: set<PhotoId>, fold: string -> string)
    requires Listing(cs, rows)
    ensures KeepsCollections(cs, PlanCreateCollection(cs, rows, name, parent, id, photos, known, fold), fold)
  {
    hide RowsFormed, Listing, FreeAmong, Listed, ManualRows, IdsIn;
    var plan := PlanCreateCollection(cs, rows, name, parent, id, photos, known, fold);
    if plan.Changing? {
      var c := plan.deltas[0].after.value;
      PutOne(cs, id, None, c);
      RowsPut(cs, id, c);
      if Formed(cs, fold) {
        if parent.Some? {
          ListedHolds(cs, rows, parent.value, fold);
        }
        FreeHolds(cs, rows, c.name, parent, None, fold);
        CreatedKeeps(ManualRows(cs), RowAt(id, c), fold);
      }
    }
  }

  lemma RenamePlanKeeps(cs: Collections, rows: seq<Row>, id: CollectionId, newName: string, fold: string -> string)
    requires Listing(cs, rows)
    ensures KeepsCollections(cs, PlanRenameCollection(cs, rows, id, newName, fold), fold)
  {
    hide RowsFormed, Listing, FreeAmong, ManualRows, IdsIn;
    var plan := PlanRenameCollection(cs, rows, id, newName, fold);
    if plan.Changing? {
      var c := plan.deltas[0].after.value;
      PutOne(cs, id, Some(cs[id]), c);
      RowsPut(cs, id, c);
      if Formed(cs, fold) {
        FreeHolds(cs, rows, c.name, c.parent, Some(id), fold);
        FormedRows(cs, fold, RowAt(id, cs[id]));
        RenamedMakesNoLoop(ManualRows(cs), RowAt(id, cs[id]), RowAt(id, c));
        ReplacedKeeps(ManualRows(cs), RowAt(id, cs[id]), RowAt(id, c), fold);
      }
    }
  }

  lemma FormedRows(cs: Collections, fold: string -> string, row: Row)
    requires Formed(cs, fold) && row in ManualRows(cs)
    ensures NoLoop(ManualRows(cs)) && OneRowEach(ManualRows(cs))
    ensures row.parent.Some? ==> row.parent.value in IdsIn(ManualRows(cs))
    ensures forall r | r in ManualRows(cs) && r != row :: r.id != row.id
  {
  }

  lemma MovePlanKeeps(cs: Collections, rows: seq<Row>, branch: seq<CollectionId>, id: CollectionId,
                      newParent: Option<CollectionId>, fold: string -> string)
    requires Listing(cs, rows) && BranchUnder(Among(rows), id, branch)
    ensures KeepsCollections(cs, PlanMoveCollection(cs, rows, branch, id, newParent, fold), fold)
  {
    hide RowsFormed, FreeAmong, Listed, ManualRows, IdsIn, BranchUnder, DistinctIds, ParentsFirst, Loop;
    var plan := PlanMoveCollection(cs, rows, branch, id, newParent, fold);
    if plan.Changing? {
      var c := plan.deltas[0].after.value;
      PutOne(cs, id, Some(cs[id]), c);
      RowsPut(cs, id, c);
      if Formed(cs, fold) {
        if newParent.Some? {
          ListedHolds(cs, rows, newParent.value, fold);
        }
        FreeHolds(cs, rows, c.name, newParent, Some(id), fold);
        FormedRows(cs, fold, RowAt(id, cs[id]));
        CollectionBranch.MoveGuardIsExact(ManualRows(cs), RowAt(id, cs[id]), newParent, branch);
        ReplacedKeeps(ManualRows(cs), RowAt(id, cs[id]), RowAt(id, c), fold);
      }
    }
  }

  lemma {:induction false} RemovalsHold(cs: Collections, branch: seq<CollectionId>)
    requires NoRepeats(branch)
    ensures |Removals(cs, branch)| == |branch|
    ensures forall i | 0 <= i < |branch| ::
              Removals(cs, branch)[i] ==
              CollectionDelta(branch[i], if branch[i] in cs then Some(cs[branch[i]]) else None, None)
  {
    if branch != [] {
      RemovalsHold(cs, branch[..|branch| - 1]);
    }
  }

  lemma RemovalsTakeOut(cs: Collections, branch: seq<CollectionId>)
    requires NoRepeats(branch)
    ensures SaysWhatWas(cs, Removals(cs, branch))
    ensures PutCollections(cs, Removals(cs, branch), Redo) == cs - set k | k in branch
  {
    RemovalsHold(cs, branch);
    var deltas := Removals(cs, branch);
    var after := PutCollections(cs, deltas, Redo);
    forall k ensures k in after <==> k in cs && k !in branch ensures k in after ==> after[k] == cs[k] {
      PutAt(cs, deltas, Redo, k);
      if k in branch {
        var i :| 0 <= i < |branch| && branch[i] == k;
        assert deltas[i].id == k;
      }
    }
  }

  lemma DeletePlanKeeps(cs: Collections, rows: seq<Row>, branch: seq<CollectionId>, id: CollectionId,
                        fold: string -> string)
    requires Listing(cs, rows) && BranchUnder(Among(rows), id, branch)
    ensures KeepsCollections(cs, PlanDeleteCollection(cs, rows, branch, id), fold)
  {
    if Listed(rows, id) {
      RemovalsTakeOut(cs, branch);
      RemovalsHold(cs, branch);
      if Formed(cs, fold) {
        DeletedStaysFormed(cs, rows, branch, id, fold);
      }
    }
  }

  lemma DeletedStaysFormed(cs: Collections, rows: seq<Row>, branch: seq<CollectionId>, id: CollectionId,
                           fold: string -> string)
    requires Listing(cs, rows) && BranchUnder(Among(rows), id, branch) && Formed(cs, fold)
    ensures Formed(cs - (set k | k in branch), fold)
  {
    hide BelowBy, Below, Loop, DistinctIds, ParentsFirst, NoLoop;
    var gone := set k | k in branch;
    var manual := ManualRows(cs);
    assert Among(rows) == manual;
    forall r | r in manual && r.parent.Some? && r.parent.value in gone ensures r.id in gone {
      if r.parent.value == id {
        OneLevel(manual, r, id);
      } else {
        var above :| above in manual && above.id == r.parent.value && Below(manual, above, id);
        OneMoreLevel(manual, r, above, id);
      }
    }
    RemovedKeeps(manual, gone, fold);
    RowsLeft(cs, gone);
  }

  lemma RowsLeft(cs: Collections, gone: set<CollectionId>)
    ensures ManualRows(cs - gone) == set r | r in ManualRows(cs) && r.id !in gone
  {
    forall k | k in cs && cs[k].manual && k !in gone ensures RowAt(k, cs[k]) in ManualRows(cs - gone) {
      assert (cs - gone)[k] == cs[k];
    }
    forall k | k in cs - gone ensures (cs - gone)[k] == cs[k] {
    }
  }

  /** New members leave the tree of collections as it is. */
  lemma MembersKeep(cs: Collections, id: CollectionId, members: seq<MemberRef>, fold: string -> string)
    requires IsManual(cs, id)
    ensures KeepsCollections(cs, One(id, Some(cs[id]), cs[id].(members := members)), fold)
  {
    hide RowsFormed;
    var c := cs[id].(members := members);
    PutOne(cs, id, Some(cs[id]), c);
    RowsPut(cs, id, c);
    assert ManualRows(cs[id := c]) == ManualRows(cs);
  }
}
