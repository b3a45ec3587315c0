// What a listing of the collections gives its readers: every collection when none is inside itself, a parent before its
// children, and so a branch under any collection that the worklist finds exactly.
module CollectionBranch {
  import opened Wrappers
  import opened CollectionTree

  function Among(rows: seq<Row>): set<Row> { set r | r in rows }

  predicate OneRowEach(rows: set<Row>) { forall a, b | a in rows && b in rows && a.id == b.id :: a == b }

  function IdsIn(rows: set<Row>): set<CollectionId> { set r | r in rows :: r.id }

  /** Collections that are all inside one another: none of them hangs from the top level. */
  predicate Loop(rows: set<Row>, inside: set<CollectionId>) {
    && inside != {} && inside <= IdsIn(rows)
    && forall r | r in rows && r.id in inside :: r.parent.Some? && r.parent.value in inside
  }

  ghost predicate NoLoop(rows: set<Row>) { forall inside :: !Loop(rows, inside) }

  /** `row` is inside `id`, `n` levels down. */
  ghost predicate BelowBy(rows: set<Row>, row: Row, id: CollectionId, n: nat)
    decreases n
  {
    && n > 0 && row.parent.Some?
    && if n == 1 then row.parent.value == id
       else exists above :: above in rows && above.id == row.parent.value && BelowBy(rows, above, id, n - 1)
  }

  ghost predicate Below(rows: set<Row>, row: Row, id: CollectionId) { exists n: nat :: BelowBy(rows, row, id, n) }

  lemma LevelsOf(rows: set<Row>, row: Row, id: CollectionId) returns (n: nat)
    requires Below(rows, row, id)
    ensures BelowBy(rows, row, id, n)
  {
    n :| BelowBy(rows, row, id, n);
  }

  lemma OneLevel(rows: set<Row>, row: Row, id: CollectionId)
    requires row.parent == Some(id)
    ensures Below(rows, row, id)
  {
    assert BelowBy(rows, row, id, 1);
  }

  lemma OneMoreLevel(rows: set<Row>, row: Row, above: Row, id: CollectionId)
    requires above in rows && row.parent == Some(above.id) && Below(rows, above, id)
    ensures Below(rows, row, id)
  {
    var n := LevelsOf(rows, above, id);
    assert BelowBy(rows, row, id, n + 1);
  }

  lemma KnownIsIds(rows: seq<Row>)
    ensures Known(rows) == IdsIn(Among(rows))
  {
    forall r | r in rows ensures r in Among(rows) { }
  }

  // ---------------------------------------------------------------- every row is listed unless there is a loop

  /** A row of a loop is not reached from the top level. */
  lemma {:induction false} LoopIsNotReached(rows: seq<Row>, inside: set<CollectionId>, row: Row, n: nat)
    requires Loop(Among(rows), inside) && row in rows && row.id in inside
    ensures !ReachedIn(rows, row, n)
    decreases n
  {
    hide IdsIn, Known;
    KnownIsIds(rows);
    assert row in Among(rows);
    if n > 0 && ReachedIn(rows, row, n) {
      var above :| above in rows && Some(above.id) == ShownIn(Known(rows), row) && ReachedIn(rows, above, n - 1);
      LoopIsNotReached(rows, inside, above, n - 1);
    }
  }

  /** What is not reached is a loop, with what hangs from it. */
  lemma UnreachedIsLoop(rows: seq<Row>, row: Row)
    requires row in rows && !Reached(rows, row) && DistinctIds(rows)
    ensures Loop(Among(rows), (set r | r in rows && !Reached(rows, r) :: r.id))
  {
    var lost := set r | r in rows && !Reached(rows, r) :: r.id;
    assert row.id in lost;
    KnownIsIds(rows);
    forall r | r in Among(rows) && r.id in lost ensures r.parent.Some? && r.parent.value in lost {
      SameRow(rows, r);
      UnreachedParent(rows, r);
    }
  }

  lemma UnreachedParent(rows: seq<Row>, row: Row)
    requires !Reached(rows, row)
    ensures row.parent.Some? && exists above :: above in rows && above.id == row.parent.value && !Reached(rows, above)
  {
    assert !ReachedIn(rows, row, 0);
    var above :| above in rows && above.id == row.parent.value;
    forall n: nat ensures !ReachedIn(rows, above, n) {
      assert !ReachedIn(rows, row, n + 1);
    }
  }

  lemma SameRow(rows: seq<Row>, row: Row)
    requires DistinctIds(rows) && row in rows
    ensures forall r | r in rows && r.id == row.id :: r == row
  {
  }

  lemma {:induction false} OnceEach(rows: seq<Row>)
    requires DistinctIds(rows)
    ensures forall r :: multiset(rows)[r] == if r in rows then 1 else 0
  {
    if rows != [] {
      var front, last := rows[..|rows| - 1], rows[|rows| - 1];
      assert rows == front + [last];
      OnceEach(front);
    }
  }

  /** **The listing is a permutation of the rows exactly when no collection is inside itself.** */
  lemma ListingIsPermutation(rows: seq<Row>, out: seq<Item>, leq: (Row, Row) -> bool)
    requires DistinctIds(rows) && TreeOrder(rows, out, leq)
    ensures multiset(RowsOf(out)) == multiset(rows) <==> NoLoop(Among(rows))
  {
    hide ReachedIn, Preorder, SiblingsInOrder, NoLoop, Loop, Reached, RowsOf;
    assert DistinctIds(RowsOf(out));
    OnceEach(rows);
    OnceEach(RowsOf(out));
    forall r ensures r in RowsOf(out) <==> r in rows && Reached(rows, r) {
      ListedIsReached(rows, out, r, leq);
    }
    AllReachedWithoutLoop(rows);
  }

  lemma ListedIsReached(rows: seq<Row>, out: seq<Item>, row: Row, leq: (Row, Row) -> bool)
    requires DistinctIds(rows) && TreeOrder(rows, out, leq)
    ensures row in RowsOf(out) <==> row in rows && Reached(rows, row)
  {
    if row in RowsOf(out) {
      var i :| 0 <= i < |out| && RowsOf(out)[i] == row;
      assert out[i] in out;
    } else if row in rows && Reached(rows, row) {
      ListedRow(rows, out, row, leq);
    }
  }

  lemma AllReachedWithoutLoop(rows: seq<Row>)
    requires DistinctIds(rows)
    ensures NoLoop(Among(rows)) <==> forall r | r in rows :: Reached(rows, r)
  {
    hide ReachedIn;
    if r :| r in rows && !Reached(rows, r) {
      UnreachedIsLoop(rows, r);
    } else if inside :| Loop(Among(rows), inside) {
      var id :| id in inside;
      var r :| r in rows && r.id == id;
      forall n: nat ensures !ReachedIn(rows, r, n) {
        LoopIsNotReached(rows, inside, r, n);
      }
    }
  }

  lemma ListedRow(rows: seq<Row>, out: seq<Item>, row: Row, leq: (Row, Row) -> bool)
    requires DistinctIds(rows) && TreeOrder(rows, out, leq) && row in rows && Reached(rows, row)
    ensures row in RowsOf(out)
  {
    var x :| x in out && x.row.id == row.id;
    SameRow(rows, row);
    var i :| 0 <= i < |out| && out[i] == x;
    assert RowsOf(out)[i] == row;
  }

  // ---------------------------------------------------------------- the branch

  /** A parent comes before its children. */
  predicate ParentsFirst(rows: seq<Row>) {
    forall i, j | 0 <= i < |rows| && 0 <= j < |rows| && rows[i].parent == Some(rows[j].id) :: j < i
  }

  lemma ListingParentsFirst(rows: seq<Row>, out: seq<Item>, leq: (Row, Row) -> bool)
    requires TreeOrder(rows, out, leq)
    ensures ParentsFirst(RowsOf(out)) && DistinctIds(RowsOf(out))
  {
    hide Placed, ReachedIn, SiblingsInOrder;
    var listed := RowsOf(out);
    forall i, j | 0 <= i < |out| && 0 <= j < |out| && listed[i].parent == Some(listed[j].id) ensures j < i {
      assert out[j] in out && out[j].row in rows;
      assert ShownIn(Known(rows), out[i].row) == Some(out[j].row.id);
      PlacedParent(Known(rows), out[..i], out[i]);
      var x :| x in out[..i] && x.row.id == out[j].row.id;
      var m :| 0 <= m < i && out[m] == x;
    }
  }

  /** What is inside a listed collection comes after it. */
  lemma {:induction false} BelowComesAfter(rows: seq<Row>, i: nat, j: nat, n: nat)
    requires ParentsFirst(rows) && i < |rows| && j < |rows| && BelowBy(Among(rows), rows[i], rows[j].id, n)
    ensures j < i
    decreases n
  {
    if n > 1 {
      var above :| above in Among(rows) && above.id == rows[i].parent.value
        && BelowBy(Among(rows), above, rows[j].id, n - 1);
      var m :| 0 <= m < |rows| && rows[m] == above;
      BelowComesAfter(rows, m, j, n - 1);
    }
  }

  function ChildIds(rows: seq<Row>, parent: CollectionId): seq<CollectionId> {
    if rows == [] then []
    else
      var last := rows[|rows| - 1];
      ChildIds(rows[..|rows| - 1], parent) + if last.parent == Some(parent) then [last.id] else []
  }

  lemma {:induction false} ChildIdsHold(rows: seq<Row>, parent: CollectionId)
    requires DistinctIds(rows)
    ensures forall k :: k in ChildIds(rows, parent) <==> exists r :: r in rows && r.id == k && r.parent == Some(parent)
    ensures NoRepeats(ChildIds(rows, parent))
  {
    if rows != [] {
      var front, last := rows[..|rows| - 1], rows[|rows| - 1];
      assert rows == front + [last];
      ChildIdsHold(front, parent);
      assert last.id !in ChildIds(front, parent);
    }
  }

  /** The part of a growing list that was looked at. */
  function LookedAt(branch: seq<CollectionId>, i: nat): set<CollectionId>
    requires i <= |branch|
  {
    set k | k in branch[..i]
  }

  predicate NoRepeats(ids: seq<CollectionId>) { forall i, j | 0 <= i < j < |ids| :: ids[i] != ids[j] }

  /** What the worklist keeps: everything in it but the first hangs from something already looked at, and everything
      that hangs from something looked at is in it. */
  ghost predicate Growing(rows: seq<Row>, branch: seq<CollectionId>, i: nat, id: CollectionId) {
    && i <= |branch| && branch != [] && branch[0] == id && NoRepeats(branch)
    && (forall k | k in branch && k != id ::
          exists r :: r in rows && r.id == k && r.parent.Some? && r.parent.value in branch[..i]
            && Below(Among(rows), r, id))
    && forall r | r in rows && r.parent.Some? && r.parent.value in branch[..i] :: r.id in branch
  }

  lemma ChildIsBelow(rows: seq<Row>, branch: seq<CollectionId>, i: nat, id: CollectionId, child: Row)
    requires Growing(rows, branch, i, id) && i < |branch| && child in rows && child.parent == Some(branch[i])
    ensures Below(Among(rows), child, id)
  {
    if branch[i] == id {
      OneLevel(Among(rows), child, id);
    } else {
      assert branch[i] in branch;
      var r :| r in rows && r.id == branch[i] && Below(Among(rows), r, id);
      OneMoreLevel(Among(rows), child, r, id);
    }
  }

  lemma ChildIsNotYetIn(rows: seq<Row>, branch: seq<CollectionId>, i: nat, id: CollectionId, child: Row)
    requires Growing(rows, branch, i, id) && i < |branch| && child in rows && child.parent == Some(branch[i])
    requires ParentsFirst(rows) && DistinctIds(rows)
    ensures child.id !in branch
  {
    hide ParentsFirst, DistinctIds, Below;
    ChildIsBelow(rows, branch, i, id, child);
    if child.id == id {
      NotBelowItself(rows, child);
    } else if child.id in branch {
      var r :| r in rows && r.id == child.id && r.parent.Some? && r.parent.value in branch[..i];
      SameRow(rows, child);
    }
  }

  lemma NotBelowItself(rows: seq<Row>, row: Row)
    requires ParentsFirst(rows) && row in rows
    ensures !Below(Among(rows), row, row.id)
  {
    if n: nat :| BelowBy(Among(rows), row, row.id, n) {
      var i :| 0 <= i < |rows| && rows[i] == row;
      BelowComesAfter(rows, i, i, n);
    }
  }

  lemma Grows(rows: seq<Row>, branch: seq<CollectionId>, i: nat, id: CollectionId)
    requires Growing(rows, branch, i, id) && i < |branch| && ParentsFirst(rows) && DistinctIds(rows)
    ensures Growing(rows, branch + ChildIds(rows, branch[i]), i + 1, id)
  {
    hide ParentsFirst, DistinctIds, ChildIds, Below;
    ChildIdsHold(rows, branch[i]);
    var kids := ChildIds(rows, branch[i]);
    var longer := branch + kids;
    assert longer[..i + 1] == branch[..i] + [branch[i]];
    forall k | k in kids
      ensures k !in branch
      ensures exists r :: r in rows && r.id == k && r.parent == Some(branch[i]) && Below(Among(rows), r, id)
    {
      var r :| r in rows && r.id == k && r.parent == Some(branch[i]);
      ChildIsNotYetIn(rows, branch, i, id, r);
      ChildIsBelow(rows, branch, i, id, r);
    }
    JoinedNoRepeats(branch, kids);
  }

  lemma JoinedNoRepeats(a: seq<CollectionId>, b: seq<CollectionId>)
    requires NoRepeats(a) && NoRepeats(b) && forall k | k in b :: k !in a
    ensures NoRepeats(a + b)
  {
    forall i, j | 0 <= i < j < |a + b| ensures (a + b)[i] != (a + b)[j] {
      if i < |a| && j >= |a| {
        assert b[j - |a|] in b && a[i] in a;
      }
    }
  }

  /** A collection and everything inside it, each once, the collection itself first. */
  ghost predicate BranchUnder(rows: set<Row>, id: CollectionId, branch: seq<CollectionId>) {
    && branch != [] && branch[0] == id && NoRepeats(branch)
    && (forall k | k in branch && k != id :: exists r :: r in rows && r.id == k && Below(rows, r, id))
    && forall r | r in rows && Below(rows, r, id) :: r.id in branch
  }

  lemma {:induction false} GrownHasAll(rows: seq<Row>, branch: seq<CollectionId>, id: CollectionId, row: Row, n: nat)
    requires Growing(rows, branch, |branch|, id) && row in rows && BelowBy(Among(rows), row, id, n)
    ensures row.id in branch
    decreases n
  {
    assert branch[..|branch|] == branch;
    if n == 1 {
      assert branch[0] in branch;
    } else {
      var above :| above in Among(rows) && above.id == row.parent.value && BelowBy(Among(rows), above, id, n - 1);
      GrownHasAll(rows, branch, id, above, n - 1);
    }
  }

  /** `id` and every collection inside it: a list that grows while it is walked. On rows that come parents first it
      ends. */
  method BranchOf(rows: seq<Row>, id: CollectionId) returns (branch: seq<CollectionId>)
    requires DistinctIds(rows) && ParentsFirst(rows)
    ensures BranchUnder(Among(rows), id, branch)
  {
    hide ParentsFirst, DistinctIds, BelowBy;
    branch := [id];
    var i := 0;
    while i < |branch|
      invariant Growing(rows, branch, i, id)
      decreases Known(rows) + {id} - LookedAt(branch, i)
    {
      LookedAtGrows(rows, branch, i, id);
      Grows(rows, branch, i, id);
      branch := branch + ChildIds(rows, branch[i]);
      i := i + 1;
    }
    forall r | r in Among(rows) && Below(Among(rows), r, id) ensures r.id in branch {
      var n: nat :| BelowBy(Among(rows), r, id, n);
      GrownHasAll(rows, branch, id, r, n);
    }
  }

  lemma LookedAtGrows(rows: seq<Row>, branch: seq<CollectionId>, i: nat, id: CollectionId)
    requires Growing(rows, branch, i, id) && i < |branch|
    ensures var longer := branch + ChildIds(rows, branch[i]);
            Known(rows) + {id} - LookedAt(longer, i + 1) < Known(rows) + {id} - LookedAt(branch, i)
  {
    hide Below, ChildIds;
    var longer := branch + ChildIds(rows, branch[i]);
    assert longer[..i + 1] == branch[..i] + [branch[i]];
    assert branch[i] in branch && branch[i] !in branch[..i];
    assert branch[i] in Known(rows) + {id};
    assert LookedAt(longer, i + 1) == LookedAt(branch, i) + {branch[i]};
    var left := Known(rows) + {id} - LookedAt(branch, i);
    assert Known(rows) + {id} - LookedAt(longer, i + 1) == left - {branch[i]} && branch[i] in left;
  }

  // ---------------------------------------------------------------- the branch of a listed collection

  /** What is inside a listed collection is listed, and inside it there too. */
  lemma {:induction false} BelowIsListed(rows: seq<Row>, out: seq<Item>, row: Row, id: CollectionId, n: nat,
                                         leq: (Row, Row) -> bool)
    requires DistinctIds(rows) && TreeOrder(rows, out, leq) && id in Ids(out)
    requires row in rows && BelowBy(Among(rows), row, id, n)
    ensures row in RowsOf(out) && BelowBy(Among(RowsOf(out)), row, id, n)
    decreases n
  {
    hide Preorder, SiblingsInOrder, Once;
    if n == 1 {
      var x :| x in out && x.row.id == id;
      ChildIsReached(rows, row, x.row, x.depth);
    } else {
      var above :| above in Among(rows) && above.id == row.parent.value && BelowBy(Among(rows), above, id, n - 1);
      BelowIsListed(rows, out, above, id, n - 1, leq);
      var i :| 0 <= i < |out| && RowsOf(out)[i] == above;
      assert out[i] in out;
      ChildIsReached(rows, row, above, out[i].depth);
    }
    ListedRow(rows, out, row, leq);
  }

  lemma ChildIsReached(rows: seq<Row>, row: Row, above: Row, n: nat)
    requires above in rows && row.parent == Some(above.id) && ReachedIn(rows, above, n)
    ensures Reached(rows, row)
  {
    assert ShownIn(Known(rows), row) == Some(above.id);
    assert ReachedIn(rows, row, n + 1);
  }

  lemma {:induction false} BelowInMore(some: set<Row>, all: set<Row>, row: Row, id: CollectionId, n: nat)
    requires some <= all && BelowBy(some, row, id, n)
    ensures BelowBy(all, row, id, n)
    decreases n
  {
    if n > 1 {
      var above :| above in some && above.id == row.parent.value && BelowBy(some, above, id, n - 1);
      BelowInMore(some, all, above, id, n - 1);
    }
  }

  /** **The branch found in a listing is the branch among all the rows**: what was left out of the listing is never
      inside a listed collection. */
  lemma ListedBranchIsBranch(rows: seq<Row>, out: seq<Item>, id: CollectionId, branch: seq<CollectionId>,
                             leq: (Row, Row) -> bool)
    requires DistinctIds(rows) && TreeOrder(rows, out, leq) && id in Ids(out)
    requires BranchUnder(Among(RowsOf(out)), id, branch)
    ensures BranchUnder(Among(rows), id, branch)
  {
    hide Preorder, SiblingsInOrder, Once, BelowBy, ReachedIn;
    var listed := RowsOf(out);
    forall r | r in listed ensures r in rows {
      var i :| 0 <= i < |out| && listed[i] == r;
      assert out[i] in out;
    }
    forall k | k in branch && k != id ensures exists r :: r in Among(rows) && r.id == k && Below(Among(rows), r, id) {
      var r :| r in Among(listed) && r.id == k && Below(Among(listed), r, id);
      var n: nat :| BelowBy(Among(listed), r, id, n);
      BelowInMore(Among(listed), Among(rows), r, id, n);
    }
    forall r | r in Among(rows) && Below(Among(rows), r, id) ensures r.id in branch {
      var n: nat :| BelowBy(Among(rows), r, id, n);
      BelowIsListed(rows, out, r, id, n, leq);
      assert r in Among(listed) && Below(Among(listed), r, id);
    }
  }

  // ---------------------------------------------------------------- the move guard

  /** The rows with one collection moved. */
  function Moved(rows: set<Row>, row: Row, parent: Option<CollectionId>): set<Row> {
    rows - {row} + {row.(parent := parent)}
  }

  lemma {:induction false} BelowAlso(rows: set<Row>, row: Row, mid: Row, n: nat)
    requires mid in rows && mid.parent.Some? && BelowBy(rows, row, mid.id, n)
    ensures BelowBy(rows, row, mid.parent.value, n + 1)
    decreases n
  {
    if n == 1 {
      assert BelowBy(rows, mid, mid.parent.value, 1);
    } else {
      var above :| above in rows && above.id == row.parent.value && BelowBy(rows, above, mid.id, n - 1);
      BelowAlso(rows, above, mid, n - 1);
    }
  }

  /** The collections between one and what it is moved into. */
  ghost function Between(rows: set<Row>, id: CollectionId, low: Row): set<CollectionId> {
    set r | r in rows && (r.id == id || Below(rows, r, id)) && (r == low || Below(rows, low, r.id)) :: r.id
  }

  lemma BelowFrom(rows: set<Row>, row: Row, mid: Row)
    requires mid in rows && mid.parent.Some? && (row == mid || Below(rows, row, mid.id))
    ensures Below(rows, row, mid.parent.value)
  {
    if row == mid {
      assert BelowBy(rows, row, mid.parent.value, 1);
    } else {
      var n: nat :| BelowBy(rows, row, mid.id, n);
      BelowAlso(rows, row, mid, n);
    }
  }

  /** What is below a collection and is not directly in it is in something below it. */
  lemma ParentIsBetween(rows: set<Row>, row: Row, id: CollectionId)
    requires Below(rows, row, id)
    ensures row.parent.Some?
    ensures row.parent.value == id || exists above ::
              above in rows && above.id == row.parent.value && Below(rows, above, id)
  {
    var n: nat :| BelowBy(rows, row, id, n);
    if n > 1 {
      var above :| above in rows && above.id == row.parent.value && BelowBy(rows, above, id, n - 1);
      assert Below(rows, above, id);
    }
  }

  lemma MovedInsideMakesLoop(rows: set<Row>, row: Row, into: Row)
    requires OneRowEach(rows) && row in rows && into in rows && (into == row || Below(rows, into, row.id))
    ensures Loop(Moved(rows, row, Some(into.id)), Between(rows, row.id, into))
  {
    hide Below, BelowBy;
    var moved, inside := Moved(rows, row, Some(into.id)), Between(rows, row.id, into);
    assert IdsIn(moved) == IdsIn(rows) by {
      assert row.(parent := Some(into.id)) in moved;
      forall r | r in rows ensures r.id in IdsIn(moved) {
        if r != row { assert r in moved; }
      }
    }
    assert into.id in inside;
    forall r | r in moved && r.id in inside ensures r.parent.Some? && r.parent.value in inside {
      if r.id != row.id {
        assert r in rows && Below(rows, r, row.id) && (r == into || Below(rows, into, r.id));
        ParentIsBetween(rows, r, row.id);
        BelowFrom(rows, into, r);
        if r.parent.value == row.id {
          assert row in rows;
        }
      } else if r in rows {
        assert r == row;
      }
    }
  }

  /** A move into none of what is under the moved collection, or to the top level. */
  ghost predicate GoesOutside(rows: set<Row>, row: Row, parent: Option<CollectionId>) {
    parent.Some? ==> exists r :: r in rows && r.id == parent.value && r != row && !Below(rows, r, row.id)
  }

  /** The part of a loop that is not under the moved collection. */
  ghost function Outside(rows: set<Row>, row: Row, inside: set<CollectionId>): set<CollectionId> {
    set r | r in rows && r.id in inside && r != row && !Below(rows, r, row.id) :: r.id
  }

  lemma LoopParent(rows: set<Row>, inside: set<CollectionId>, r: Row) returns (above: Row)
    requires Loop(rows, inside) && r in rows && r.id in inside
    ensures above in rows && above.id in inside && r.parent == Some(above.id)
  {
    above :| above in rows && above.id == r.parent.value;
  }

  lemma OutsideHas(rows: set<Row>, row: Row, inside: set<CollectionId>)
    ensures forall r | r in rows && r.id in inside && r != row && !Below(rows, r, row.id) ::
              r.id in Outside(rows, row, inside)
  {
    hide Below;
  }

  lemma OutsideIsClosed(rows: set<Row>, row: Row, parent: Option<CollectionId>, inside: set<CollectionId>, r: Row)
    requires row in rows && Loop(Moved(rows, row, parent), inside)
    requires r in rows && r.id in inside && r != row && !Below(rows, r, row.id)
    ensures r.parent.Some? && r.parent.value in Outside(rows, row, inside)
  {
    hide Below, Loop, Outside;
    assert r in Moved(rows, row, parent);
    var above := LoopParent(Moved(rows, row, parent), inside, r);
    OutsideHas(rows, row, inside);
    if above.id == row.id {
      OneLevel(rows, r, row.id);
    } else if Below(rows, above, row.id) {
      OneMoreLevel(rows, r, above, row.id);
    }
  }

  lemma LoopElsewhere(rows: set<Row>, row: Row, parent: Option<CollectionId>, inside: set<CollectionId>)
    requires row in rows && Loop(Moved(rows, row, parent), inside) && row.id !in inside
    ensures Loop(rows, inside)
  {
    forall r | r in rows && r.id in inside ensures r.parent.Some? && r.parent.value in inside {
      assert r in Moved(rows, row, parent);
    }
  }

  lemma SomeOutside(rows: set<Row>, row: Row, parent: Option<CollectionId>, inside: set<CollectionId>)
    requires OneRowEach(rows) && row in rows && NoLoop(rows) && GoesOutside(rows, row, parent)
    requires Loop(Moved(rows, row, parent), inside)
    ensures Outside(rows, row, inside) != {}
  {
    hide Below;
    var moved := Moved(rows, row, parent);
    if row.id in inside {
      assert row.(parent := parent) in moved;
      var into :| into in rows && into.id == parent.value && into != row && !Below(rows, into, row.id);
      assert into.id in Outside(rows, row, inside);
    } else {
      LoopElsewhere(rows, row, parent, inside);
    }
  }

  lemma MovedOutsideKeepsNoLoop(rows: set<Row>, row: Row, parent: Option<CollectionId>, inside: set<CollectionId>)
    requires OneRowEach(rows) && row in rows && NoLoop(rows) && GoesOutside(rows, row, parent)
    ensures !Loop(Moved(rows, row, parent), inside)
  {
    hide Below, GoesOutside, OneRowEach, Loop, Moved;
    if Loop(Moved(rows, row, parent), inside) {
      LoopOutside(rows, row, parent, inside);
    }
  }

  /** A loop after the move leaves one among the rows that were not under the moved collection. */
  lemma LoopOutside(rows: set<Row>, row: Row, parent: Option<CollectionId>, inside: set<CollectionId>)
    requires OneRowEach(rows) && row in rows && NoLoop(rows) && GoesOutside(rows, row, parent)
    requires Loop(Moved(rows, row, parent), inside)
    ensures Loop(rows, Outside(rows, row, inside))
  {
    hide Below, GoesOutside, OneRowEach, Moved, NoLoop, Loop, Outside;
    SomeOutside(rows, row, parent, inside);
    var outside := Outside(rows, row, inside);
    forall r | r in rows && r.id in outside ensures r.parent.Some? && r.parent.value in outside {
      OutsideRow(rows, row, inside, r);
      OutsideIsClosed(rows, row, parent, inside, r);
    }
    OutsideIsSome(rows, row, inside);
    IsLoop(rows, outside);
  }

  lemma IsLoop(rows: set<Row>, inside: set<CollectionId>)
    requires inside != {} && inside <= IdsIn(rows)
    requires forall r | r in rows && r.id in inside :: r.parent.Some? && r.parent.value in inside
    ensures Loop(rows, inside)
  {
  }

  lemma OutsideIsSome(rows: set<Row>, row: Row, inside: set<CollectionId>)
    ensures Outside(rows, row, inside) <= IdsIn(rows)
  {
  }

  lemma OutsideRow(rows: set<Row>, row: Row, inside: set<CollectionId>, r: Row)
    requires OneRowEach(rows) && r in rows && r.id in Outside(rows, row, inside)
    ensures r.id in inside && r != row && !Below(rows, r, row.id)
  {
    hide Below;
  }

  /** **The guard of a move is exact**: when no collection is inside itself, moving one makes a loop exactly when it
      goes into its own branch. */
  lemma MoveGuardIsExact(rows: set<Row>, row: Row, parent: Option<CollectionId>, branch: seq<CollectionId>)
    requires OneRowEach(rows) && NoLoop(rows) && row in rows && BranchUnder(rows, row.id, branch)
    requires parent.Some? ==> parent.value in IdsIn(rows)
    ensures NoLoop(Moved(rows, row, parent)) <==> !(parent.Some? && parent.value in branch)
  {
    hide Below, BelowBy, Loop;
    if parent.Some? && parent.value in branch {
      var into :| into in rows && into.id == parent.value && (into == row || Below(rows, into, row.id));
      MovedInsideMakesLoop(rows, row, into);
    } else {
      if parent.Some? {
        var into :| into in rows && into.id == parent.value;
        assert into != row && !Below(rows, into, row.id);
      }
      forall inside ensures !Loop(Moved(rows, row, parent), inside) {
        MovedOutsideKeepsNoLoop(rows, row, parent, inside);
      }
    }
  }
}
