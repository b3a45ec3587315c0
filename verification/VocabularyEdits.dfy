// The edits of the vocabulary: each is a list of before and after entries, applied in either direction. What
// every edit checks first, and that it keeps the vocabulary well formed and goes back exactly.
module VocabularyEdits {
  import opened Wrappers
  import opened Text
  import opened Vocabulary

  datatype Direction = Undo | Redo

  /** One keyword, as it was and as it became (`None`: it did not exist). */
  datatype KeywordDelta = KeywordDelta(id: KeywordId, before: Option<KeywordEntry>, after: Option<KeywordEntry>)

  datatype Refusal = KeywordName | KeywordNameTaken | KeywordNotFound | KeywordCycle | IdentifierUsed

  datatype Planned = Refused(why: Refusal) | Nothing | Deltas(deltas: seq<KeywordDelta>)

  function Target(delta: KeywordDelta, direction: Direction): Option<KeywordEntry> {
    if direction == Undo then delta.before else delta.after
  }

  /** The deltas name each keyword once, and say the entries of the keyword they name. */
  predicate Proper(deltas: seq<KeywordDelta>) {
    && (forall i, j | 0 <= i < j < |deltas| :: deltas[i].id != deltas[j].id)
    && forall d | d in deltas ::
         && (d.before.Some? ==> d.before.value.id == d.id)
         && (d.after.Some? ==> d.after.value.id == d.id)
  }

  function WithoutId(vocabulary: seq<KeywordEntry>, id: KeywordId): seq<KeywordEntry> {
    if vocabulary == [] then []
    else
      var last := vocabulary[|vocabulary| - 1];
      WithoutId(vocabulary[..|vocabulary| - 1], id) + if last.id == id then [] else [last]
  }

  /** The list with the deltas made: each keyword taken out, and put back at the end when it still exists. */
  function ApplyDeltas(vocabulary: seq<KeywordEntry>, deltas: seq<KeywordDelta>,
                       direction: Direction): seq<KeywordEntry> {
    if deltas == [] then vocabulary
    else
      var d := deltas[|deltas| - 1];
      var rest := WithoutId(ApplyDeltas(vocabulary, deltas[..|deltas| - 1], direction), d.id);
      match Target(d, direction)
      case Some(entry) => rest + [entry]
      case None => rest
  }

  /** The same on the tree. */
  function Overlay(tree: Tree, deltas: seq<KeywordDelta>, direction: Direction): Tree {
    if deltas == [] then tree
    else
      var d := deltas[|deltas| - 1];
      var rest := Overlay(tree, deltas[..|deltas| - 1], direction);
      match Target(d, direction)
      case Some(entry) => rest[d.id := entry]
      case None => rest - {d.id}
  }

  lemma {:induction false} WithoutHolds(vocabulary: seq<KeywordEntry>, id: KeywordId)
    ensures forall e :: e in WithoutId(vocabulary, id) <==> e in vocabulary && e.id != id
  {
    if vocabulary != [] {
      var front, last := vocabulary[..|vocabulary| - 1], vocabulary[|vocabulary| - 1];
      WithoutHolds(front, id);
      assert vocabulary == front + [last];
    }
  }

  lemma ByIdAppend(vocabulary: seq<KeywordEntry>, entry: KeywordEntry)
    ensures ById(vocabulary + [entry]) == ById(vocabulary)[entry.id := entry]
  {
    assert (vocabulary + [entry])[..|vocabulary|] == vocabulary;
  }

  lemma DistinctAppend(vocabulary: seq<KeywordEntry>, entry: KeywordEntry)
    requires Distinct(vocabulary) && forall e | e in vocabulary :: e.id != entry.id
    ensures Distinct(vocabulary + [entry])
  {
  }

  lemma {:induction false} WithoutDistinct(vocabulary: seq<KeywordEntry>, id: KeywordId)
    requires Distinct(vocabulary)
    ensures Distinct(WithoutId(vocabulary, id))
  {
    if vocabulary != [] {
      var front, last := vocabulary[..|vocabulary| - 1], vocabulary[|vocabulary| - 1];
      WithoutDistinct(front, id);
      WithoutHolds(front, id);
      if last.id != id {
        DistinctAppend(WithoutId(front, id), last);
      }
    }
  }

  lemma UpdateOther(tree: Tree, id: KeywordId, entry: KeywordEntry)
    requires entry.id != id
    ensures (tree - {id})[entry.id := entry] == tree[entry.id := entry] - {id}
  {
  }

  lemma UpdateGone(tree: Tree, id: KeywordId, entry: KeywordEntry)
    requires entry.id == id
    ensures tree[id := entry] - {id} == tree - {id}
  {
  }

  lemma UpdateAgain(tree: Tree, id: KeywordId, entry: KeywordEntry)
    requires entry.id == id
    ensures (tree - {id})[id := entry] == tree[id := entry]
  {
  }

  lemma {:induction false} WithoutById(vocabulary: seq<KeywordEntry>, id: KeywordId)
    ensures ById(WithoutId(vocabulary, id)) == ById(vocabulary) - {id}
  {
    if vocabulary != [] {
      var front, last := vocabulary[..|vocabulary| - 1], vocabulary[|vocabulary| - 1];
      WithoutById(front, id);
      if last.id == id {
        assert WithoutId(vocabulary, id) == WithoutId(front, id);
        UpdateGone(ById(front), id, last);
      } else {
        ByIdAppend(WithoutId(front, id), last);
        UpdateOther(ById(front), id, last);
      }
    }
  }

  /** One delta on the list is one on the tree. */
  lemma PutFacts(vocabulary: seq<KeywordEntry>, id: KeywordId, target: Option<KeywordEntry>)
    requires Distinct(vocabulary) && (target.Some? ==> target.value.id == id)
    ensures target.None? ==> var v := WithoutId(vocabulary, id); Distinct(v) && ById(v) == ById(vocabulary) - {id}
    ensures target.Some? ==>
              var v := WithoutId(vocabulary, id) + [target.value];
              Distinct(v) && ById(v) == ById(vocabulary)[id := target.value]
  {
    WithoutDistinct(vocabulary, id);
    WithoutById(vocabulary, id);
    WithoutHolds(vocabulary, id);
    if target.Some? {
      ByIdAppend(WithoutId(vocabulary, id), target.value);
      UpdateAgain(ById(vocabulary), id, target.value);
      DistinctAppend(WithoutId(vocabulary, id), target.value);
    }
  }

  /** The list and the tree say the same after any deltas: the order of the list is all they differ in. */
  lemma {:induction false} ApplyDeltasIsOverlay(vocabulary: seq<KeywordEntry>, deltas: seq<KeywordDelta>,
                                                direction: Direction)
    requires Distinct(vocabulary) && Proper(deltas)
    ensures Distinct(ApplyDeltas(vocabulary, deltas, direction))
    ensures ById(ApplyDeltas(vocabulary, deltas, direction)) == Overlay(ById(vocabulary), deltas, direction)
  {
    if deltas != [] {
      var front, d := deltas[..|deltas| - 1], deltas[|deltas| - 1];
      ApplyDeltasIsOverlay(vocabulary, front, direction);
      assert d in deltas;
      PutFacts(ApplyDeltas(vocabulary, front, direction), d.id, Target(d, direction));
    }
  }

  lemma {:induction false} OverlayAt(tree: Tree, deltas: seq<KeywordDelta>, direction: Direction, k: KeywordId)
    requires Proper(deltas)
    ensures forall i | 0 <= i < |deltas| && deltas[i].id == k ::
              && (k in Overlay(tree, deltas, direction) <==> Target(deltas[i], direction).Some?)
              && (k in Overlay(tree, deltas, direction) ==>
                    Overlay(tree, deltas, direction)[k] == Target(deltas[i], direction).value)
    ensures (forall i | 0 <= i < |deltas| :: deltas[i].id != k) ==>
              && (k in Overlay(tree, deltas, direction) <==> k in tree)
              && (k in tree ==> Overlay(tree, deltas, direction)[k] == tree[k])
  {
    if deltas != [] {
      OverlayAt(tree, deltas[..|deltas| - 1], direction, k);
    }
  }

  /** The deltas say what the tree holds before them. */
  predicate Agrees(tree: Tree, deltas: seq<KeywordDelta>) {
    forall d | d in deltas :: d.before == if d.id in tree then Some(tree[d.id]) else None
  }

  /** Deltas made from the tree as it is are taken back exactly. */
  lemma OverlayUndone(tree: Tree, deltas: seq<KeywordDelta>)
    requires Proper(deltas) && Agrees(tree, deltas)
    ensures Overlay(Overlay(tree, deltas, Redo), deltas, Undo) == tree
  {
    var done := Overlay(tree, deltas, Redo);
    var back := Overlay(done, deltas, Undo);
    forall k
      ensures k in back <==> k in tree
      ensures k in tree ==> back[k] == tree[k]
    {
      OverlayAt(tree, deltas, Redo, k);
      OverlayAt(done, deltas, Undo, k);
      if i :| 0 <= i < |deltas| && deltas[i].id == k {
        assert deltas[i] in deltas;
      }
    }
  }

  // ---------------------------------------------------------------- forests, by rank

  /** Every keyword ranks above its parent: what a forest is, said without walking it. */
  ghost predicate Ranked(tree: Tree, rank: map<KeywordId, nat>) {
    && tree.Keys <= rank.Keys
    && forall k | k in tree && tree[k].parent.Some? && tree[k].parent.value in tree ::
         rank[tree[k].parent.value] < rank[k]
  }

  lemma {:induction false} ChainRank(tree: Tree, rank: map<KeywordId, nat>, current: Option<KeywordId>,
                                     seen: set<KeywordId>)
    requires Ranked(tree, rank)
    ensures current.Some? && current.value in tree ==>
              forall k | k in Chain(tree, current, seen) :: k in tree && rank[k] <= rank[current.value]
    decreases tree.Keys - seen
  {
    if current.Some? && current.value !in seen && current.value in tree {
      ChainRank(tree, rank, tree[current.value].parent, seen + {current.value});
    }
  }

  lemma RankedIsAcyclic(tree: Tree, rank: map<KeywordId, nat>)
    requires Ranked(tree, rank)
    ensures Acyclic(tree)
  {
    forall k | k in tree ensures k !in Chain(tree, tree[k].parent, {}) {
      ChainRank(tree, rank, tree[k].parent, {});
    }
  }

  function Depths(tree: Tree): map<KeywordId, nat> {
    map k | k in tree :: |Chain(tree, Some(k), {})|
  }

  lemma DepthsRank(tree: Tree)
    requires Acyclic(tree)
    ensures Ranked(tree, Depths(tree))
  {
    forall k | k in tree ensures Chain(tree, Some(k), {}) == [k] + Chain(tree, tree[k].parent, {}) {
      ChainStep(tree, k);
    }
  }

  // ---------------------------------------------------------------- what the edits check

  function CheckedName(name: string): Option<string> {
    var trimmed := Trim(name);
    if trimmed == "" || '|' in trimmed then None else Some(trimmed)
  }

  predicate NameIsFree(tree: Tree, name: string, parent: Option<KeywordId>, except: Option<KeywordId>,
                       fold: string -> string) {
    forall k | k in tree && tree[k].parent == parent && Some(k) != except :: fold(tree[k].name) != fold(name)
  }

  /** Making a keyword (its identifier is given, or drawn at random). */
  function PlanCreate(tree: Tree, name: string, parent: Option<KeywordId>, id: KeywordId,
                      fold: string -> string): Planned {
    match CheckedName(name)
    case None => Refused(KeywordName)
    case Some(checked) =>
      if parent.Some? && parent.value !in tree then Refused(KeywordNotFound)
      else if !NameIsFree(tree, checked, parent, None, fold) then Refused(KeywordNameTaken)
      else if id in tree then Refused(IdentifierUsed)
      else Deltas([KeywordDelta(id, None, Some(KeywordEntry(id, checked, parent, [], true)))])
  }

  function PlanRename(tree: Tree, id: KeywordId, newName: string, fold: string -> string): Planned {
    match CheckedName(newName)
    case None => Refused(KeywordName)
    case Some(checked) =>
      if id !in tree then Refused(KeywordNotFound)
      else if !NameIsFree(tree, checked, tree[id].parent, Some(id), fold) then Refused(KeywordNameTaken)
      else Deltas([KeywordDelta(id, Some(tree[id]), Some(tree[id].(name := checked)))])
  }

  function PlanMove(tree: Tree, id: KeywordId, newParent: Option<KeywordId>, fold: string -> string): Planned {
    if id !in tree then Refused(KeywordNotFound)
    else if tree[id].parent == newParent then Nothing
    else if newParent.Some? && newParent.value !in tree then Refused(KeywordNotFound)
    else if newParent.Some? && Under(tree, newParent.value, id) then Refused(KeywordCycle)
    else if !NameIsFree(tree, tree[id].name, newParent, Some(id), fold) then Refused(KeywordNameTaken)
    else Deltas([KeywordDelta(id, Some(tree[id]), Some(tree[id].(parent := newParent)))])
  }

  function PlanProperties(tree: Tree, id: KeywordId, synonyms: seq<string>, exported: bool): Planned {
    if id !in tree then Refused(KeywordNotFound)
    else if tree[id].synonyms == synonyms && tree[id].exported == exported then Nothing
    else Deltas([KeywordDelta(id, Some(tree[id]), Some(tree[id].(synonyms := synonyms, exported := exported)))])
  }

  /** The keyword and everything under it, each once. */
  predicate IsBranch(tree: Tree, id: KeywordId, branch: seq<KeywordId>) {
    && (forall i, j | 0 <= i < j < |branch| :: branch[i] != branch[j])
    && (forall k | k in branch :: k in tree && Under(tree, k, id))
    && (forall k | k in tree && Under(tree, k, id) :: k in branch)
  }

  /** Deleting a branch: an entry for each of its keywords the vocabulary (still) holds. */
  function DeleteDeltas(tree: Tree, branch: seq<KeywordId>): seq<KeywordDelta> {
    if branch == [] then []
    else
      var last := branch[|branch| - 1];
      DeleteDeltas(tree, branch[..|branch| - 1])
      + if last in tree then [KeywordDelta(last, Some(tree[last]), None)] else []
  }

  // ---------------------------------------------------------------- what the edits keep

  /** One entry made or replaced: what is left to check for the vocabulary to stay well formed. */
  lemma OneEntry(tree: Tree, entry: KeywordEntry, fold: string -> string)
    requires WellFormed(tree, fold) && NameOk(entry.name)
    requires entry.parent.Some? ==> entry.parent.value in tree
    requires NameIsFree(tree, entry.name, entry.parent, Some(entry.id), fold)
    requires Acyclic(tree[entry.id := entry])
    ensures WellFormed(tree[entry.id := entry], fold)
  {
    OneSibling(tree, entry, fold);
  }

  lemma OneSibling(tree: Tree, entry: KeywordEntry, fold: string -> string)
    requires SiblingsDiffer(tree, fold)
    requires NameIsFree(tree, entry.name, entry.parent, Some(entry.id), fold)
    ensures SiblingsDiffer(tree[entry.id := entry], fold)
  {
    var after := tree[entry.id := entry];
    forall j, k | j in after && k in after && j != k && after[j].parent == after[k].parent
      ensures fold(after[j].name) != fold(after[k].name)
    {
      if j == entry.id {
        assert k in tree && after[k] == tree[k] && Some(k) != Some(entry.id);
      } else if k == entry.id {
        assert j in tree && after[j] == tree[j] && Some(j) != Some(entry.id);
      } else {
        assert after[j] == tree[j] && after[k] == tree[k];
      }
    }
  }

  lemma NewKeywordKeepsForest(tree: Tree, entry: KeywordEntry)
    requires Acyclic(tree) && NoMissingParent(tree) && entry.id !in tree
    requires entry.parent.Some? ==> entry.parent.value in tree
    ensures Acyclic(tree[entry.id := entry])
  {
    DepthsRank(tree);
    var depths := Depths(tree);
    RankedIsAcyclic(tree[entry.id := entry],
                    depths[entry.id := if entry.parent.Some? then depths[entry.parent.value] + 1 else 0]);
  }

  lemma SameParentKeepsForest(tree: Tree, entry: KeywordEntry)
    requires Acyclic(tree) && entry.id in tree && tree[entry.id].parent == entry.parent
    ensures Acyclic(tree[entry.id := entry])
  {
    DepthsRank(tree);
    RankedIsAcyclic(tree[entry.id := entry], Depths(tree));
  }

  lemma {:induction false} MeetsIgnores(a: Tree, b: Tree, current: Option<KeywordId>, id: KeywordId,
                                        seen: set<KeywordId>)
    requires a.Keys == b.Keys && forall k | k in a && k != id :: a[k] == b[k]
    ensures Meets(a, current, id, seen) == Meets(b, current, id, seen)
    decreases a.Keys - seen
  {
    if current.Some? && current.value != id && current.value !in seen && current.value in a {
      MeetsIgnores(a, b, a[current.value].parent, id, seen + {current.value});
    }
  }

  /** The guard of a move is exactly what excludes a cycle: moving a keyword makes one if and only if the new
      parent is the keyword or under it. */
  lemma MoveGuardIsExact(tree: Tree, id: KeywordId, newParent: Option<KeywordId>)
    requires Acyclic(tree) && NoMissingParent(tree) && id in tree
    requires newParent.Some? ==> newParent.value in tree
    ensures Acyclic(tree[id := tree[id].(parent := newParent)]) <==>
            !(newParent.Some? && Under(tree, newParent.value, id))
  {
    var moved := tree[id := tree[id].(parent := newParent)];
    if newParent.Some? && Under(tree, newParent.value, id) {
      MeetsIgnores(tree, moved, newParent, id, {});
      MeetsIsOnChain(moved, newParent, id, {});
      assert id in Chain(moved, moved[id].parent, {});
    } else {
      MoveRanked(tree, id, newParent);
      RankedIsAcyclic(moved, MovedRank(tree, id, newParent));
    }
  }

  /** The ranks after a move: the branch goes below its new parent. */
  function MovedRank(tree: Tree, id: KeywordId, newParent: Option<KeywordId>): map<KeywordId, nat>
    requires newParent.Some? ==> newParent.value in tree
  {
    var below := if newParent.Some? then Depths(tree)[newParent.value] + 1 else 0;
    map k | k in tree :: Depths(tree)[k] + if Under(tree, k, id) then below else 0
  }

  lemma MoveRanked(tree: Tree, id: KeywordId, newParent: Option<KeywordId>)
    requires Acyclic(tree) && NoMissingParent(tree) && id in tree
    requires newParent.Some? ==> newParent.value in tree && !Under(tree, newParent.value, id)
    ensures Ranked(tree[id := tree[id].(parent := newParent)], MovedRank(tree, id, newParent))
  {
    DepthsRank(tree);
    forall k | k in tree
      ensures Under(tree, k, id) <==> k == id || (tree[k].parent.Some? && Under(tree, tree[k].parent.value, id))
    {
      UnderStep(tree, k, id);
    }
  }

  /** A keyword is under another when it is that one or its parent is under it. */
  lemma UnderStep(tree: Tree, k: KeywordId, id: KeywordId)
    requires Acyclic(tree) && k in tree && id in tree
    ensures Under(tree, k, id) <==>
            k == id || (tree[k].parent.Some? && Under(tree, tree[k].parent.value, id))
  {
    ChainStep(tree, k);
    MeetsIsOnChain(tree, Some(k), id, {});
    MeetsIsOnChain(tree, tree[k].parent, id, {});
  }

  /** A walk that starts with less to stop at meets what it met. */
  lemma {:induction false} MeetsWithLess(tree: Tree, current: Option<KeywordId>, id: KeywordId, seen: set<KeywordId>,
                                         less: set<KeywordId>)
    requires Meets(tree, current, id, seen) && less <= seen
    ensures Meets(tree, current, id, less)
    decreases tree.Keys - seen
  {
    if current.value != id {
      MeetsWithLess(tree, tree[current.value].parent, id, seen + {current.value}, less + {current.value});
    }
  }

  /** Told to stop at `x`, a walk still meets what it met, or the walk from `x` does. */
  lemma {:induction false} MeetsPast(tree: Tree, current: Option<KeywordId>, id: KeywordId, seen: set<KeywordId>,
                                     x: KeywordId)
    requires Meets(tree, current, id, seen)
    ensures Meets(tree, current, id, seen + {x}) || Meets(tree, Some(x), id, seen)
    decreases tree.Keys - seen
  {
    var c := current.value;
    if c != id && c != x {
      MeetsPast(tree, tree[c].parent, id, seen + {c}, x);
      assert seen + {c} + {x} == seen + {x} + {c};
      if Meets(tree, Some(x), id, seen + {c}) {
        MeetsWithLess(tree, Some(x), id, seen + {c}, seen);
      }
    }
  }

  /** What hangs from a keyword of a branch is of the branch, cycles or not. */
  lemma ChildIsUnder(tree: Tree, k: KeywordId, id: KeywordId)
    requires k in tree && tree[k].parent.Some? && Under(tree, tree[k].parent.value, id)
    ensures Under(tree, k, id)
  {
    MeetsPast(tree, tree[k].parent, id, {}, k);
    assert {} + {k} == {k};
  }

  lemma {:induction false} DeleteDeltasFacts(tree: Tree, branch: seq<KeywordId>)
    requires forall k | k in tree :: tree[k].id == k
    requires forall i, j | 0 <= i < j < |branch| :: branch[i] != branch[j]
    ensures Proper(DeleteDeltas(tree, branch)) && Agrees(tree, DeleteDeltas(tree, branch))
    ensures forall d | d in DeleteDeltas(tree, branch) :: d.id in branch && d.id in tree && d.after.None?
    ensures forall k | k in branch && k in tree :: KeywordDelta(k, Some(tree[k]), None) in DeleteDeltas(tree, branch)
  {
    if branch != [] {
      DeleteDeltasFacts(tree, branch[..|branch| - 1]);
      assert branch == branch[..|branch| - 1] + [branch[|branch| - 1]];
    }
  }

  lemma DeleteDeltasRemove(tree: Tree, branch: seq<KeywordId>)
    requires forall k | k in tree :: tree[k].id == k
    requires forall i, j | 0 <= i < j < |branch| :: branch[i] != branch[j]
    ensures Overlay(tree, DeleteDeltas(tree, branch), Redo) == tree - set k | k in branch
  {
    DeleteDeltasFacts(tree, branch);
    var deltas := DeleteDeltas(tree, branch);
    var after := Overlay(tree, deltas, Redo);
    forall k
      ensures k in after <==> k in tree && k !in branch
      ensures k in after ==> after[k] == tree[k]
    {
      OverlayAt(tree, deltas, Redo, k);
      if k in tree && k in branch {
        var i :| 0 <= i < |deltas| && deltas[i] == KeywordDelta(k, Some(tree[k]), None);
        assert deltas[i].id == k;
      } else if i :| 0 <= i < |deltas| && deltas[i].id == k {
        assert deltas[i] in deltas;
      }
    }
  }

  /** Taking a set of keywords out keeps the vocabulary well formed exactly when what stays names none of them
      as a parent. */
  lemma RemovalKeepsWellFormed(tree: Tree, gone: set<KeywordId>, fold: string -> string)
    requires WellFormed(tree, fold)
    ensures WellFormed(tree - gone, fold) <==>
            forall k | k in tree && k !in gone && tree[k].parent.Some? :: tree[k].parent.value !in gone
  {
    DepthsRank(tree);
    assert Ranked(tree - gone, Depths(tree));
    RankedIsAcyclic(tree - gone, Depths(tree));
    if k :| k in tree && k !in gone && tree[k].parent.Some? && tree[k].parent.value in gone {
      assert k in tree - gone && !NoMissingParent(tree - gone);
    }
  }

  lemma OverlayOne(tree: Tree, delta: KeywordDelta, direction: Direction)
    ensures Overlay(tree, [delta], direction) ==
            match Target(delta, direction)
            case Some(entry) => tree[delta.id := entry]
            case None => tree - {delta.id}
  {
    assert [delta][..0] == [];
  }

  /** What an accepted edit promises: the vocabulary stays well formed, and the edit goes back exactly. */
  predicate KeepsForm(tree: Tree, plan: Planned, fold: string -> string) {
    plan.Deltas? ==>
      && Proper(plan.deltas) && Agrees(tree, plan.deltas)
      && WellFormed(Overlay(tree, plan.deltas, Redo), fold)
      && Overlay(Overlay(tree, plan.deltas, Redo), plan.deltas, Undo) == tree
  }

  lemma OneDeltaKeeps(tree: Tree, delta: KeywordDelta, fold: string -> string)
    requires WellFormed(tree, fold)
    requires Proper([delta]) && Agrees(tree, [delta])
    requires delta.after.Some? && WellFormed(tree[delta.id := delta.after.value], fold)
    ensures KeepsForm(tree, Deltas([delta]), fold)
  {
    OverlayOne(tree, delta, Redo);
    OverlayUndone(tree, [delta]);
  }

  lemma CreateKeeps(tree: Tree, name: string, parent: Option<KeywordId>, id: KeywordId, fold: string -> string)
    requires WellFormed(tree, fold)
    ensures KeepsForm(tree, PlanCreate(tree, name, parent, id, fold), fold)
  {
    var plan := PlanCreate(tree, name, parent, id, fold);
    if plan.Deltas? {
      TrimFacts(name);
      NewKeywordKeepsForest(tree, plan.deltas[0].after.value);
      OneEntry(tree, plan.deltas[0].after.value, fold);
      OneDeltaKeeps(tree, plan.deltas[0], fold);
    }
  }

  lemma RenameKeeps(tree: Tree, id: KeywordId, newName: string, fold: string -> string)
    requires WellFormed(tree, fold)
    ensures KeepsForm(tree, PlanRename(tree, id, newName, fold), fold)
  {
    var plan := PlanRename(tree, id, newName, fold);
    if plan.Deltas? {
      TrimFacts(newName);
      SameParentKeepsForest(tree, plan.deltas[0].after.value);
      OneEntry(tree, plan.deltas[0].after.value, fold);
      OneDeltaKeeps(tree, plan.deltas[0], fold);
    }
  }

  lemma MoveKeeps(tree: Tree, id: KeywordId, newParent: Option<KeywordId>, fold: string -> string)
    requires WellFormed(tree, fold)
    ensures KeepsForm(tree, PlanMove(tree, id, newParent, fold), fold)
  {
    var plan := PlanMove(tree, id, newParent, fold);
    if plan.Deltas? {
      MoveGuardIsExact(tree, id, newParent);
      OneEntry(tree, plan.deltas[0].after.value, fold);
      OneDeltaKeeps(tree, plan.deltas[0], fold);
    }
  }

  lemma PropertiesKeep(tree: Tree, id: KeywordId, synonyms: seq<string>, exported: bool, fold: string -> string)
    requires WellFormed(tree, fold)
    ensures KeepsForm(tree, PlanProperties(tree, id, synonyms, exported), fold)
  {
    var plan := PlanProperties(tree, id, synonyms, exported);
    if plan.Deltas? {
      SameParentKeepsForest(tree, plan.deltas[0].after.value);
      OneEntry(tree, plan.deltas[0].after.value, fold);
      OneDeltaKeeps(tree, plan.deltas[0], fold);
    }
  }

  /** Deleting a keyword with everything under it keeps the vocabulary well formed, and goes back exactly. */
  lemma DeletingABranchKeepsWellFormed(tree: Tree, id: KeywordId, branch: seq<KeywordId>, fold: string -> string)
    requires WellFormed(tree, fold) && id in tree && IsBranch(tree, id, branch)
    ensures Proper(DeleteDeltas(tree, branch)) && Agrees(tree, DeleteDeltas(tree, branch))
    ensures WellFormed(Overlay(tree, DeleteDeltas(tree, branch), Redo), fold)
    ensures Overlay(Overlay(tree, DeleteDeltas(tree, branch), Redo), DeleteDeltas(tree, branch), Undo) == tree
  {
    DeleteDeltasFacts(tree, branch);
    DeleteDeltasRemove(tree, branch);
    var gone := set k | k in branch;
    forall k | k in tree && k !in gone && tree[k].parent.Some?
      ensures tree[k].parent.value !in gone
    {
      UnderStep(tree, k, id);
    }
    RemovalKeepsWellFormed(tree, gone, fold);
    OverlayUndone(tree, DeleteDeltas(tree, branch));
  }
}
