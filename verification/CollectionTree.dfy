// The tree of manual collections: its listing in tree order by an explicit stack, and the branch under a collection by
// a growing worklist.
module CollectionTree {
  import opened Wrappers

  type CollectionId = nat

  datatype Row = Row(id: CollectionId, parent: Option<CollectionId>, name: string)

  predicate DistinctIds(rows: seq<Row>) {
    forall i, j | 0 <= i < j < |rows| :: rows[i].id != rows[j].id
  }

  function Known(rows: seq<Row>): set<CollectionId> { set r | r in rows :: r.id }

  /** Where a row is shown: in its parent, or at the top level when the parent is not among the rows. */
  function ShownIn(known: set<CollectionId>, row: Row): Option<CollectionId> {
    if row.parent.Some? && row.parent.value in known then row.parent else None
  }

  // ---------------------------------------------------------------- siblings in order

  /** A row at its place among its siblings, after the ones it equals. */
  function InsertSibling(sorted: seq<Row>, row: Row, leq: (Row, Row) -> bool): seq<Row> {
    if sorted == [] || leq(sorted[|sorted| - 1], row) then sorted + [row]
    else InsertSibling(sorted[..|sorted| - 1], row, leq) + [sorted[|sorted| - 1]]
  }

  function SortSiblings(rows: seq<Row>, leq: (Row, Row) -> bool): seq<Row> {
    if rows == [] then [] else InsertSibling(SortSiblings(rows[..|rows| - 1], leq), rows[|rows| - 1], leq)
  }

  ghost predicate TotalOrder(leq: (Row, Row) -> bool) {
    && (forall a, b :: leq(a, b) || leq(b, a))
    && forall a, b, c :: leq(a, b) && leq(b, c) ==> leq(a, c)
  }

  /** No row twice, each before the ones it precedes. */
  predicate InOrder(rows: seq<Row>, leq: (Row, Row) -> bool) {
    DistinctIds(rows) && forall a, b | 0 <= a < b < |rows| :: leq(rows[a], rows[b])
  }

  lemma {:induction false} InsertInOrder(sorted: seq<Row>, row: Row, leq: (Row, Row) -> bool)
    requires TotalOrder(leq) && InOrder(sorted, leq) && forall r | r in sorted :: r.id != row.id
    ensures forall r :: r in InsertSibling(sorted, row, leq) <==> r in sorted || r == row
    ensures InOrder(InsertSibling(sorted, row, leq), leq)
  {
    if !(sorted == [] || leq(sorted[|sorted| - 1], row)) {
      var front, last := sorted[..|sorted| - 1], sorted[|sorted| - 1];
      assert sorted == front + [last];
      InsertInOrder(front, row, leq);
      var inserted := InsertSibling(front, row, leq);
      forall a | 0 <= a < |inserted| ensures inserted[a].id != last.id && leq(inserted[a], last) {
        assert inserted[a] in inserted;
      }
    }
  }

  lemma {:induction false} SortInOrder(rows: seq<Row>, leq: (Row, Row) -> bool)
    requires TotalOrder(leq) && DistinctIds(rows)
    ensures forall r :: r in SortSiblings(rows, leq) <==> r in rows
    ensures InOrder(SortSiblings(rows, leq), leq)
  {
    if rows != [] {
      var front, last := rows[..|rows| - 1], rows[|rows| - 1];
      assert rows == front + [last];
      SortInOrder(front, leq);
      InsertInOrder(SortSiblings(front, leq), last, leq);
    }
  }

  /** Every parent's children: the rows shown in it, each once and in order. */
  ghost predicate ChildrenOf(rows: seq<Row>, children: map<Option<CollectionId>, seq<Row>>, leq: (Row, Row) -> bool) {
    && (forall r | r in rows :: ShownIn(Known(rows), r) in children)
    && forall parent | parent in children ::
         && InOrder(children[parent], leq)
         && forall r :: r in children[parent] <==> r in rows && ShownIn(Known(rows), r) == parent
  }

  ghost predicate Gathered(known: set<CollectionId>, rows: seq<Row>, gathered: map<Option<CollectionId>, seq<Row>>) {
    && (forall r | r in rows :: ShownIn(known, r) in gathered)
    && forall parent | parent in gathered ::
         && DistinctIds(gathered[parent])
         && forall r :: r in gathered[parent] <==> r in rows && ShownIn(known, r) == parent
  }

  lemma GatherOne(known: set<CollectionId>, rows: seq<Row>, gathered: map<Option<CollectionId>, seq<Row>>, row: Row)
    requires Gathered(known, rows, gathered) && forall r | r in rows :: r.id != row.id
    ensures var parent := ShownIn(known, row);
            Gathered(known, rows + [row],
                     gathered[parent := (if parent in gathered then gathered[parent] else []) + [row]])
  {
  }

  /** The children of every parent that has some, gathered in one pass and then sorted. */
  method GatherChildren(rows: seq<Row>, leq: (Row, Row) -> bool) returns (children: map<Option<CollectionId>, seq<Row>>)
    requires DistinctIds(rows) && TotalOrder(leq)
    ensures ChildrenOf(rows, children, leq)
  {
    var known := Known(rows);
    var gathered: map<Option<CollectionId>, seq<Row>> := map[];
    for n := 0 to |rows|
      invariant Gathered(known, rows[..n], gathered)
    {
      hide Gathered;
      assert rows[..n + 1] == rows[..n] + [rows[n]];
      GatherOne(known, rows[..n], gathered, rows[n]);
      var parent := ShownIn(known, rows[n]);
      gathered := gathered[parent := (if parent in gathered then gathered[parent] else []) + [rows[n]]];
    }
    assert rows[..|rows|] == rows;
    forall parent | parent in gathered
      ensures InOrder(SortSiblings(gathered[parent], leq), leq)
      ensures forall r :: r in SortSiblings(gathered[parent], leq) <==> r in gathered[parent]
    {
      SortInOrder(gathered[parent], leq);
    }
    children := map parent | parent in gathered :: SortSiblings(gathered[parent], leq);
  }

  // ---------------------------------------------------------------- the listing and what it keeps

  /** A row as it waits on the stack and as it is listed. */
  datatype Item = Item(row: Row, depth: nat)

  function Ids(items: seq<Item>): set<CollectionId> { set x | x in items :: x.row.id }

  function RowsOf(items: seq<Item>): (rows: seq<Row>)
    ensures |rows| == |items| && forall i | 0 <= i < |rows| :: rows[i] == items[i].row
  {
    seq(|items|, i requires 0 <= i < |items| => items[i].row)
  }

  /** A row is shown at the top level, or `n` steps below it. */
  ghost predicate ReachedIn(rows: seq<Row>, row: Row, n: nat)
    decreases n
  {
    var parent := ShownIn(Known(rows), row);
    if n == 0 then parent.None?
    else parent.Some? && exists above :: above in rows && above.id == parent.value && ReachedIn(rows, above, n - 1)
  }

  ghost predicate Reached(rows: seq<Row>, row: Row) { exists n: nat :: ReachedIn(rows, row, n) }

  /** An item has its place after `out`: at the top level, or under a listed row one level up with nothing shallower
      than it in between. */
  predicate Placed(known: set<CollectionId>, out: seq<Item>, item: Item) {
    if item.depth == 0 then ShownIn(known, item.row).None?
    else exists m :: 0 <= m < |out| && PlacedUnder(known, out, item, m)
  }

  predicate PlacedUnder(known: set<CollectionId>, out: seq<Item>, item: Item, m: nat)
    requires m < |out|
  {
    && out[m].depth == item.depth - 1 && ShownIn(known, item.row) == Some(out[m].row.id)
    && forall x | m < x < |out| :: out[x].depth >= item.depth
  }

  /** Every row is at its place when its turn comes. */
  predicate Preorder(known: set<CollectionId>, out: seq<Item>) {
    forall n | 0 <= n < |out| :: Placed(known, out[..n], out[n])
  }

  /** Siblings are listed in order. */
  predicate SiblingsInOrder(known: set<CollectionId>, out: seq<Item>, leq: (Row, Row) -> bool) {
    forall a, b | 0 <= a < b < |out| && ShownIn(known, out[a].row) == ShownIn(known, out[b].row) ::
      leq(out[a].row, out[b].row)
  }

  predicate Once(items: seq<Item>) { forall a, b | 0 <= a < b < |items| :: items[a].row.id != items[b].row.id }

  /** What comes next is what is on the stack, read from the top. */
  function FromTop(stack: seq<Item>): (next: seq<Item>)
    ensures |next| == |stack| && forall i | 0 <= i < |stack| :: next[i] == stack[|stack| - 1 - i]
  {
    seq(|stack|, i requires 0 <= i < |stack| => stack[|stack| - 1 - i])
  }

  lemma PushedComesFirst(rest: seq<Item>, items: seq<Item>)
    ensures FromTop(rest + FromTop(items)) == items + FromTop(rest)
  {
  }

  /** The stack holds each item at its place, deepest first. */
  predicate Stacked(known: set<CollectionId>, out: seq<Item>, next: seq<Item>) {
    && (forall a | 0 <= a < |next| :: Placed(known, out, next[a]))
    && forall a, b | 0 <= a < b < |next| :: next[a].depth >= next[b].depth
  }

  /** Nothing is forgotten: a row at the top level or under a listed one is listed or waits. */
  predicate Covers(rows: seq<Row>, listed: set<CollectionId>, all: set<CollectionId>) {
    forall r | r in rows && r.id !in all :: var p := ShownIn(Known(rows), r); p.Some? && p.value !in listed
  }

  ghost predicate AllReached(rows: seq<Row>, items: seq<Item>) {
    forall x | x in items :: x.row in rows && ReachedIn(rows, x.row, x.depth)
  }

  /** What every turn of the walk keeps. */
  ghost predicate Walking(rows: seq<Row>, out: seq<Item>, next: seq<Item>, leq: (Row, Row) -> bool) {
    && Preorder(Known(rows), out) && Stacked(Known(rows), out, next)
    && Once(out + next) && SiblingsInOrder(Known(rows), out + next, leq)
    && Covers(rows, Ids(out), Ids(out + next)) && AllReached(rows, out + next)
  }

  /** The children of a row, one level down. */
  function ItemsAt(rows: seq<Row>, depth: nat): (items: seq<Item>)
    ensures |items| == |rows| && forall i | 0 <= i < |rows| :: items[i] == Item(rows[i], depth)
  {
    seq(|rows|, i requires 0 <= i < |rows| => Item(rows[i], depth))
  }

  lemma IdOf(items: seq<Item>, i: nat)
    requires i < |items|
    ensures items[i].row.id in Ids(items)
  {
    assert items[i] in items;
  }

  /** A placed item is at the top level or has its parent listed. */
  lemma PlacedParent(known: set<CollectionId>, out: seq<Item>, item: Item)
    requires Placed(known, out, item)
    ensures var p := ShownIn(known, item.row); p.Some? ==> p.value in Ids(out)
  {
    if item.depth > 0 {
      var m :| 0 <= m < |out| && PlacedUnder(known, out, item, m);
      IdOf(out, m);
    }
  }

  lemma NextIsPlaced(known: set<CollectionId>, out: seq<Item>, top: Item)
    requires Preorder(known, out) && Placed(known, out, top)
    ensures Preorder(known, out + [top])
  {
    hide Placed;
    forall n | 0 <= n < |out + [top]| ensures Placed(known, (out + [top])[..n], (out + [top])[n]) {
      assert (out + [top])[..n] == out[..n];
      assert out[..|out|] == out;
    }
  }

  /** What waits keeps its place when something at least as deep is listed. */
  lemma StaysPlaced(known: set<CollectionId>, out: seq<Item>, top: Item, item: Item)
    requires Placed(known, out, item) && item.depth <= top.depth
    ensures Placed(known, out + [top], item)
  {
    if item.depth > 0 {
      var m :| 0 <= m < |out| && PlacedUnder(known, out, item, m);
      assert PlacedUnder(known, out + [top], item, m);
    }
  }

  lemma ChildIsPlaced(known: set<CollectionId>, out: seq<Item>, top: Item, child: Item)
    requires child.depth == top.depth + 1 && ShownIn(known, child.row) == Some(top.row.id)
    ensures Placed(known, out + [top], child)
  {
    assert PlacedUnder(known, out + [top], child, |out|);
  }

  lemma StillStacked(known: set<CollectionId>, out: seq<Item>, top: Item, kids: seq<Row>, rest: seq<Item>)
    requires Stacked(known, out, [top] + rest) && forall r | r in kids :: ShownIn(known, r) == Some(top.row.id)
    ensures Stacked(known, out + [top], ItemsAt(kids, top.depth + 1) + rest)
  {
    hide Placed;
    var next := ItemsAt(kids, top.depth + 1) + rest;
    var was := [top] + rest;
    forall a | 0 <= a < |rest| ensures was[a + 1] == rest[a] && rest[a].depth <= top.depth {
      assert was[0].depth >= was[a + 1].depth;
    }
    forall a | 0 <= a < |next| ensures Placed(known, out + [top], next[a]) {
      if a < |kids| {
        ChildIsPlaced(known, out, top, next[a]);
      } else {
        StaysPlaced(known, out, top, rest[a - |kids|]);
      }
    }
  }

  /** A row under the one just listed was neither listed nor waiting. */
  lemma ChildIsNew(known: set<CollectionId>, out: seq<Item>, top: Item, rest: seq<Item>, child: Row, rows: seq<Row>)
    requires Preorder(known, out) && Stacked(known, out, [top] + rest) && Once(out + ([top] + rest))
    requires DistinctIds(rows) && child in rows && ShownIn(known, child) == Some(top.row.id)
    requires forall x | x in out + ([top] + rest) :: x.row in rows
    ensures child.id !in Ids(out + ([top] + rest))
  {
    var all := out + ([top] + rest);
    if x :| x in all && x.row.id == child.id {
      assert x.row == child;
      var i :| 0 <= i < |all| && all[i] == x;
      if i < |out| {
        PlacedParent(known, out[..i], x);
      } else {
        assert x == ([top] + rest)[i - |out|];
        PlacedParent(known, out, x);
      }
      var y :| y in out && y.row.id == top.row.id;
      var j :| 0 <= j < |out| && out[j] == y;
      assert all[j].row.id == all[|out|].row.id;
    }
  }

  lemma InsertedOnce(front: seq<Item>, kids: seq<Item>, rest: seq<Item>)
    requires Once(front + rest) && Once(kids) && forall k | k in kids :: k.row.id !in Ids(front + rest)
    ensures Once(front + (kids + rest))
  {
    var all, was := front + (kids + rest), front + rest;
    forall i | 0 <= i < |was| ensures was[i].row.id in Ids(was) { IdOf(was, i); }
    forall a, b | 0 <= a < b < |all| ensures all[a].row.id != all[b].row.id {
      var inA, inB := |front| <= a < |front| + |kids|, |front| <= b < |front| + |kids|;
      var a', b' := if a < |front| then a else a - |kids|, if b < |front| then b else b - |kids|;
      if inA && inB {
        assert all[a] == kids[a - |front|] && all[b] == kids[b - |front|];
      } else if inA {
        assert all[a] in kids && all[b] == was[b'];
      } else if inB {
        assert all[b] in kids && all[a] == was[a'];
      } else {
        assert all[a] == was[a'] && all[b] == was[b'];
      }
    }
  }

  /** Rows of one parent, in order among themselves, that nothing else shares the parent of. */
  lemma InsertedInOrder(known: set<CollectionId>, front: seq<Item>, kids: seq<Item>, rest: seq<Item>,
                        parent: CollectionId, leq: (Row, Row) -> bool)
    requires SiblingsInOrder(known, front + rest, leq) && SiblingsInOrder(known, kids, leq)
    requires forall k | k in kids :: ShownIn(known, k.row) == Some(parent)
    requires forall x | x in front + rest :: ShownIn(known, x.row) != Some(parent)
    ensures SiblingsInOrder(known, front + (kids + rest), leq)
  {
    hide ShownIn;
    var all, was := front + (kids + rest), front + rest;
    var from, to := |front|, |front| + |kids|;
    forall i | 0 <= i < |all|
      ensures ShownIn(known, all[i].row) == Some(parent) <==> from <= i < to
    {
      if from <= i < to {
        assert all[i] == kids[i - from];
      } else {
        assert all[i] == was[if i < from then i else i - |kids|];
      }
    }
    forall a, b | 0 <= a < b < |all| && ShownIn(known, all[a].row) == ShownIn(known, all[b].row)
      ensures leq(all[a].row, all[b].row)
    {
      if from <= a < to {
        assert all[a] == kids[a - from] && all[b] == kids[b - from];
      } else {
        assert all[a] == was[if a < from then a else a - |kids|] && all[b] == was[if b < from then b else b - |kids|];
      }
    }
  }

  lemma StillCovers(rows: seq<Row>, out: seq<Item>, top: Item, kids: seq<Item>, rest: seq<Item>)
    requires Covers(rows, Ids(out), Ids(out + ([top] + rest)))
    requires forall r | r in rows && ShownIn(Known(rows), r) == Some(top.row.id) :: Item(r, top.depth + 1) in kids
    ensures Covers(rows, Ids(out + [top]), Ids((out + [top]) + (kids + rest)))
  {
    var all := (out + [top]) + (kids + rest);
    forall k | k in kids ensures k.row.id in Ids(all) { assert k in all; }
    forall x | x in out + ([top] + rest) ensures x.row.id in Ids(all) { assert x in all; }
    assert Ids(out + ([top] + rest)) <= Ids(all);
    assert Ids(out + [top]) == Ids(out) + {top.row.id};
  }

  lemma StillReached(rows: seq<Row>, out: seq<Item>, top: Item, kids: seq<Row>, rest: seq<Item>)
    requires AllReached(rows, out + ([top] + rest))
    requires forall r | r in kids :: r in rows && ShownIn(Known(rows), r) == Some(top.row.id)
    ensures AllReached(rows, (out + [top]) + (ItemsAt(kids, top.depth + 1) + rest))
  {
    var was := out + ([top] + rest);
    assert was[|out|] == top && top in was;
    forall x | x in (out + [top]) + (ItemsAt(kids, top.depth + 1) + rest)
      ensures x.row in rows && ReachedIn(rows, x.row, x.depth)
    {
      if x in ItemsAt(kids, top.depth + 1) {
        assert x.row in kids;
      } else {
        assert x in was;
      }
    }
  }

  /** One turn of the walk. */
  lemma WalkOn(rows: seq<Row>, out: seq<Item>, top: Item, rest: seq<Item>, kids: seq<Row>, leq: (Row, Row) -> bool)
    requires DistinctIds(rows) && Walking(rows, out, [top] + rest, leq) && InOrder(kids, leq)
    requires forall r :: r in kids <==> r in rows && ShownIn(Known(rows), r) == Some(top.row.id)
    ensures Walking(rows, out + [top], ItemsAt(kids, top.depth + 1) + rest, leq)
  {
    hide Preorder, Stacked, Once, Covers, SiblingsInOrder, ReachedIn, ShownIn, Placed;
    var known, items := Known(rows), ItemsAt(kids, top.depth + 1);
    TopIsPlaced(known, out, top, rest);
    NextIsPlaced(known, out, top);
    StillStacked(known, out, top, kids, rest);
    assert out + ([top] + rest) == (out + [top]) + rest;
    KidsAreNew(known, out, top, rest, kids, rows);
    KidsOnce(kids, top.depth + 1);
    InsertedOnce(out + [top], items, rest);
    KidsInOrder(known, kids, top.depth + 1, leq);
    NobodyElsesKids(rows, out, top, rest, leq);
    InsertedInOrder(known, out + [top], items, rest, top.row.id, leq);
    forall r | r in rows && ShownIn(known, r) == Some(top.row.id) ensures Item(r, top.depth + 1) in items {
      var i :| 0 <= i < |kids| && kids[i] == r;
      assert items[i] == Item(r, top.depth + 1);
    }
    StillCovers(rows, out, top, items, rest);
    StillReached(rows, out, top, kids, rest);
  }

  lemma TopIsPlaced(known: set<CollectionId>, out: seq<Item>, top: Item, rest: seq<Item>)
    requires Stacked(known, out, [top] + rest)
    ensures Placed(known, out, top)
  {
    hide Placed;
    assert ([top] + rest)[0] == top;
  }

  lemma KidsAreNew(known: set<CollectionId>, out: seq<Item>, top: Item, rest: seq<Item>, kids: seq<Row>, rows: seq<Row>)
    requires Preorder(known, out) && Stacked(known, out, [top] + rest) && Once(out + ([top] + rest))
    requires DistinctIds(rows) && forall r | r in kids :: r in rows && ShownIn(known, r) == Some(top.row.id)
    requires forall x | x in out + ([top] + rest) :: x.row in rows
    ensures forall k | k in ItemsAt(kids, top.depth + 1) :: k.row.id !in Ids(out + ([top] + rest))
    ensures forall k | k in ItemsAt(kids, top.depth + 1) :: ShownIn(known, k.row) == Some(top.row.id)
  {
    hide Preorder, Stacked, Once, ShownIn, DistinctIds;
    forall k | k in ItemsAt(kids, top.depth + 1)
      ensures k.row.id !in Ids(out + ([top] + rest)) && ShownIn(known, k.row) == Some(top.row.id)
    {
      assert k.row in kids;
      ChildIsNew(known, out, top, rest, k.row, rows);
    }
  }

  lemma KidsOnce(kids: seq<Row>, depth: nat)
    requires DistinctIds(kids)
    ensures Once(ItemsAt(kids, depth))
  {
  }

  lemma KidsInOrder(known: set<CollectionId>, kids: seq<Row>, depth: nat, leq: (Row, Row) -> bool)
    requires InOrder(kids, leq)
    ensures SiblingsInOrder(known, ItemsAt(kids, depth), leq)
  {
  }

  lemma NobodyElsesKids(rows: seq<Row>, out: seq<Item>, top: Item, rest: seq<Item>, leq: (Row, Row) -> bool)
    requires DistinctIds(rows) && Walking(rows, out, [top] + rest, leq)
    ensures forall x | x in (out + [top]) + rest :: ShownIn(Known(rows), x.row) != Some(top.row.id)
  {
    hide Preorder, Stacked, Once, Covers, SiblingsInOrder, ReachedIn, ShownIn, DistinctIds;
    var all := out + ([top] + rest);
    assert all == (out + [top]) + rest;
    forall x | x in all ensures x.row.id in Ids(all) && x.row in rows {
    }
    forall x | x in all && ShownIn(Known(rows), x.row) == Some(top.row.id) ensures false {
      ChildIsNew(Known(rows), out, top, rest, x.row, rows);
    }
  }

  lemma WalkStarts(rows: seq<Row>, top: seq<Row>, leq: (Row, Row) -> bool)
    requires InOrder(top, leq) && forall r :: r in top <==> r in rows && ShownIn(Known(rows), r).None?
    ensures Walking(rows, [], ItemsAt(top, 0), leq)
  {
    hide Known, ShownIn;
    var items, none: seq<Item> := ItemsAt(top, 0), [];
    assert none + items == items && Ids(none) == {};
    KidsOnce(top, 0);
    KidsInOrder(Known(rows), top, 0, leq);
    forall x | x in ItemsAt(top, 0) ensures x.row in rows && ReachedIn(rows, x.row, 0) {
      assert x.row in top;
    }
    forall r | r in rows && ShownIn(Known(rows), r).None? ensures r.id in Ids(ItemsAt(top, 0)) {
      var i :| 0 <= i < |top| && top[i] == r;
      IdOf(ItemsAt(top, 0), i);
    }
    hide ReachedIn, Once, SiblingsInOrder;
  }

  // ---------------------------------------------------------------- what is listed

  /** A listing in tree order: the rows reached from the top level, each once, every one at its place and its depth, the
      children of one parent in order. */
  ghost predicate TreeOrder(rows: seq<Row>, out: seq<Item>, leq: (Row, Row) -> bool) {
    && Once(out) && Preorder(Known(rows), out) && SiblingsInOrder(Known(rows), out, leq)
    && AllReached(rows, out)
    && forall r | r in rows && Reached(rows, r) :: r.id in Ids(out)
  }

  lemma {:induction false} ReachedIsListed(rows: seq<Row>, out: seq<Item>, row: Row, n: nat)
    requires Covers(rows, Ids(out), Ids(out)) && row in rows && ReachedIn(rows, row, n)
    ensures row.id in Ids(out)
    decreases n
  {
    if n > 0 {
      var above :| above in rows && Some(above.id) == ShownIn(Known(rows), row) && ReachedIn(rows, above, n - 1);
      ReachedIsListed(rows, out, above, n - 1);
    }
  }

  /** Depth first, iteratively: the last sibling goes on the stack first so the first comes off first. The walk ends
      and lists the tree in order, whatever parents the rows name: missing ones and cycles included. */
  method InTreeOrder(rows: seq<Row>, leq: (Row, Row) -> bool) returns (out: seq<Item>)
    requires DistinctIds(rows) && TotalOrder(leq)
    ensures TreeOrder(rows, out, leq)
  {
    hide Walking, ReachedIn, TotalOrder, DistinctIds, InOrder, Placed, ChildrenOf, TreeOrder, Ids, Known, ShownIn;
    var children := GatherChildren(rows, leq);
    var top := ChildrenIn(rows, children, None, leq);
    WalkStarts(rows, top, leq);
    var stack := FromTop(ItemsAt(top, 0));
    assert FromTop(stack) == ItemsAt(top, 0);
    out := [];
    while stack != []
      invariant Walking(rows, out, FromTop(stack), leq)
      decreases Known(rows) - Ids(out)
    {
      var item, rest := stack[|stack| - 1], stack[..|stack| - 1];
      assert FromTop(stack) == [item] + FromTop(rest);
      var kids := ChildrenIn(rows, children, Some(item.row.id), leq);
      WalkOn(rows, out, item, FromTop(rest), kids, leq);
      ListedGrows(rows, out, item, FromTop(rest), leq);
      out := out + [item];
      PushedComesFirst(rest, ItemsAt(kids, item.depth + 1));
      stack := rest + FromTop(ItemsAt(kids, item.depth + 1));
    }
    assert FromTop(stack) == [] && out + [] == out;
    AllListed(rows, out, leq);
  }

  method ChildrenIn(rows: seq<Row>, children: map<Option<CollectionId>, seq<Row>>, parent: Option<CollectionId>,
                    ghost leq: (Row, Row) -> bool) returns (kids: seq<Row>)
    requires ChildrenOf(rows, children, leq)
    ensures InOrder(kids, leq) && forall r :: r in kids <==> r in rows && ShownIn(Known(rows), r) == parent
  {
    kids := if parent in children then children[parent] else [];
  }

  lemma ListedGrows(rows: seq<Row>, out: seq<Item>, item: Item, rest: seq<Item>, leq: (Row, Row) -> bool)
    requires Walking(rows, out, [item] + rest, leq)
    ensures item.row.id in Known(rows) - Ids(out)
    ensures Known(rows) - Ids(out + [item]) < Known(rows) - Ids(out)
  {
    hide Preorder, Stacked, Covers, SiblingsInOrder, ReachedIn, ShownIn;
    var all := out + ([item] + rest);
    assert all[|out|] == item && item in all;
    assert Ids(out + [item]) == Ids(out) + {item.row.id};
    forall x | x in out ensures x.row.id != item.row.id {
      var i :| 0 <= i < |out| && out[i] == x;
      assert all[i] == x;
    }
  }

  lemma AllListed(rows: seq<Row>, out: seq<Item>, leq: (Row, Row) -> bool)
    requires Walking(rows, out, [], leq)
    ensures TreeOrder(rows, out, leq)
  {
    assert out + [] == out;
    forall r | r in rows && Reached(rows, r) ensures r.id in Ids(out) {
      var n: nat :| ReachedIn(rows, r, n);
      ReachedIsListed(rows, out, r, n);
    }
  }
}
