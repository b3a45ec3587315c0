// What the edits of the vocabulary do, said of the vocabulary before and after: which of them are allowed, the one
// entry each changes, and what becomes of every path.
module VocabularyChanges {
  import opened Wrappers
  import opened Text
  import opened Vocabulary
  import opened VocabularyEdits
  import opened KeywordText
  import opened KeywordIndex

  // ---------------------------------------------------------------- lines of keywords

  /** Each keyword of the line is followed by its parent. */
  predicate IsLine(tree: Tree, line: seq<KeywordId>) {
    && line != []
    && forall i | 0 <= i < |line| - 1 :: line[i] in tree && tree[line[i]].parent == Some(line[i + 1])
  }

  predicate LineBetween(tree: Tree, line: seq<KeywordId>, below: KeywordId, id: KeywordId) {
    IsLine(tree, line) && line[0] == below && line[|line| - 1] == id
  }

  lemma LineOneMore(tree: Tree, k: KeywordId, line: seq<KeywordId>)
    requires k in tree && IsLine(tree, line) && tree[k].parent == Some(line[0])
    ensures IsLine(tree, [k] + line)
  {
    forall i | 0 <= i < |[k] + line| - 1
      ensures ([k] + line)[i] in tree && tree[([k] + line)[i]].parent == Some(([k] + line)[i + 1])
    {
      if i > 0 {
        assert ([k] + line)[i] == line[i - 1];
      }
    }
  }

  lemma LineTail(tree: Tree, line: seq<KeywordId>)
    requires IsLine(tree, line) && |line| > 1
    ensures IsLine(tree, line[1..]) && line[0] in tree && tree[line[0]].parent == Some(line[1..][0])
  {
    assert forall i | 0 <= i < |line| - 1 :: line[1..][i] == line[i + 1];
  }

  lemma {:induction false} MeetsAlong(tree: Tree, current: Option<KeywordId>, id: KeywordId, seen: set<KeywordId>)
    returns (line: seq<KeywordId>)
    requires Meets(tree, current, id, seen)
    ensures LineBetween(tree, line, current.value, id)
    decreases tree.Keys - seen
  {
    if current.value == id {
      line := [id];
    } else {
      line := MeetsAlong(tree, tree[current.value].parent, id, seen + {current.value});
      LineOneMore(tree, current.value, line);
      line := [current.value] + line;
    }
  }

  lemma {:induction false} LineMeets(tree: Tree, line: seq<KeywordId>)
    requires IsLine(tree, line)
    ensures Under(tree, line[0], line[|line| - 1])
  {
    if |line| > 1 {
      LineTail(tree, line);
      LineMeets(tree, line[1..]);
      ChildIsUnder(tree, line[0], line[|line| - 1]);
    }
  }

  /** A keyword is under another exactly when going from parent to parent leads to it, whatever else hangs where. */
  lemma UnderIsLine(tree: Tree, below: KeywordId, id: KeywordId)
    ensures Under(tree, below, id) <==> exists line :: LineBetween(tree, line, below, id)
  {
    if Under(tree, below, id) {
      var line := MeetsAlong(tree, Some(below), id, {});
      assert LineBetween(tree, line, below, id);
    }
    if line :| LineBetween(tree, line, below, id) {
      LineMeets(tree, line);
    }
  }

  /** An update of the index rewrites exactly the keywords from which a line leads up to one that was changed and is
      still there. */
  lemma RewrittenAreBelow(tree: Tree, deltas: seq<KeywordDelta>, direction: Direction, k: KeywordId)
    ensures Rewritten(tree, deltas, direction, k) <==>
            k in tree && exists i, line ::
              && 0 <= i < |deltas| && Target(deltas[i], direction).Some? && LineBetween(tree, line, k, deltas[i].id)
  {
    if i :| 0 <= i < |deltas| && Target(deltas[i], direction).Some? && Under(tree, k, deltas[i].id) {
      UnderIsLine(tree, k, deltas[i].id);
    }
    if i, line :| 0 <= i < |deltas| && Target(deltas[i], direction).Some? && LineBetween(tree, line, k, deltas[i].id) {
      UnderIsLine(tree, k, deltas[i].id);
    }
  }

  // ---------------------------------------------------------------- the walk up from a keyword

  /** What a walk up from a keyword meets: from parent to parent, none twice, until the top, a parent that is not there
      or one it has met. */
  predicate WalksUp(tree: Tree, line: seq<KeywordId>) {
    && IsLine(tree, line) && (forall i, j | 0 <= i < j < |line| :: line[i] != line[j])
    && var last := line[|line| - 1];
    && last in tree
    && (tree[last].parent.Some? ==> tree[last].parent.value !in tree || tree[last].parent.value in line)
  }

  lemma {:induction false} ChainWalks(tree: Tree, current: Option<KeywordId>, seen: set<KeywordId>)
    ensures var line := Chain(tree, current, seen);
            && (line == [] <==> current.None? || current.value in seen || current.value !in tree)
            && (line != [] ==>
                  && line[0] == current.value && IsLine(tree, line) && line[|line| - 1] in tree
                  && (forall i, j | 0 <= i < j < |line| :: line[i] != line[j]) && (forall k | k in line :: k !in seen)
                  && var next := tree[line[|line| - 1]].parent;
                  next.Some? ==> next.value !in tree || next.value in line || next.value in seen)
    decreases tree.Keys - seen
  {
    if current.Some? && current.value !in seen && current.value in tree {
      var k := current.value;
      var rest := Chain(tree, tree[k].parent, seen + {k});
      ChainWalks(tree, tree[k].parent, seen + {k});
      if rest != [] {
        LineOneMore(tree, k, rest);
      }
    }
  }

  lemma {:induction false} NamesUp(tree: Tree, chain: seq<KeywordId>)
    requires forall k | k in chain :: k in tree
    ensures forall i | 0 <= i < |chain| :: Segments(tree, chain)[|chain| - 1 - i] == tree[chain[i]].name
  {
    if chain != [] {
      NamesUp(tree, chain[1..]);
    }
  }

  /** **A path is the names the walk up meets, the last met first**, whatever hangs where, cycles and missing parents
      included. */
  lemma PathIsWalk(tree: Tree, k: KeywordId) returns (line: seq<KeywordId>)
    requires k in tree
    ensures WalksUp(tree, line) && line[0] == k && |PathNames(tree, k)| == |line|
    ensures forall i | 0 <= i < |line| ::
              line[i] in tree && PathNames(tree, k)[|line| - 1 - i] == tree[line[i]].name
  {
    line := Chain(tree, Some(k), {});
    ChainInTree(tree, Some(k), {});
    ChainWalks(tree, Some(k), {});
    NamesUp(tree, line);
  }

  /** An identifier that is there more than once names the last of its entries. */
  lemma {:induction false} LastEntryWins(vocabulary: seq<KeywordEntry>, i: nat)
    requires i < |vocabulary| && forall j | i < j < |vocabulary| :: vocabulary[j].id != vocabulary[i].id
    ensures vocabulary[i].id in ById(vocabulary) && ById(vocabulary)[vocabulary[i].id] == vocabulary[i]
  {
    if i < |vocabulary| - 1 {
      LastEntryWins(vocabulary[..|vocabulary| - 1], i);
    }
  }

  // ---------------------------------------------------------------- paths, from parent to child

  /** A forest in which every parent is there. */
  predicate Forest(tree: Tree) { Acyclic(tree) && NoMissingParent(tree) }

  /** A printed path is the parent's, a separator and the name. */
  lemma PrintedStep(tree: Tree, k: KeywordId)
    requires Forest(tree) && k in tree
    ensures PathOf(tree, k) ==
            if tree[k].parent.None? then tree[k].name
            else PathOf(tree, tree[k].parent.value) + "|" + tree[k].name
  {
    PathNamesStep(tree, k);
    if tree[k].parent.Some? {
      PathNamesStep(tree, tree[k].parent.value);
      JoinSplits(PathNames(tree, tree[k].parent.value), [tree[k].name], '|');
    } else {
      assert [] + [tree[k].name] == [tree[k].name];
    }
  }

  // ---------------------------------------------------------------- what one changed entry does to the paths

  /** Outside the branch of the changed keyword every path stays. */
  lemma {:induction false} OutsideKeepsPath(tree: Tree, entry: KeywordEntry, k: KeywordId)
    requires Forest(tree) && Forest(tree[entry.id := entry])
    requires k in tree && (entry.id in tree ==> !Under(tree, k, entry.id))
    ensures PathNames(tree[entry.id := entry], k) == PathNames(tree, k)
    decreases Depths(tree)[k]
  {
    hide PathNames;
    var after := tree[entry.id := entry];
    assert k != entry.id;
    PathNamesStep(tree, k);
    PathNamesStep(after, k);
    if tree[k].parent.Some? {
      DepthsRank(tree);
      if entry.id in tree {
        UnderStep(tree, k, entry.id);
      }
      OutsideKeepsPath(tree, entry, tree[k].parent.value);
    }
  }

  /** Inside it what follows the changed keyword's own path stays. */
  lemma {:induction false} InsideKeepsRest(tree: Tree, entry: KeywordEntry, k: KeywordId)
    requires Forest(tree) && Forest(tree[entry.id := entry]) && entry.id in tree
    requires k in tree && Under(tree, k, entry.id)
    ensures PathNames(tree, entry.id) <= PathNames(tree, k)
    ensures PathNames(tree[entry.id := entry], k) ==
            PathNames(tree[entry.id := entry], entry.id) + PathNames(tree, k)[|PathNames(tree, entry.id)|..]
    decreases Depths(tree)[k]
  {
    hide PathNames;
    var after := tree[entry.id := entry];
    if k != entry.id {
      PathNamesStep(tree, k);
      PathNamesStep(after, k);
      DepthsRank(tree);
      UnderStep(tree, k, entry.id);
      InsideKeepsRest(tree, entry, tree[k].parent.value);
    }
  }

  /** The paths before and after one entry changed: those outside its branch stay, those inside get the keyword's new
      path in place of its old one, and the new path is the one of the new parent with the new name. */
  predicate PathsFollow(before: Tree, after: Tree, id: KeywordId)
    requires id in before && id in after && before.Keys == after.Keys
  {
    && PathNames(after, id) == NamesTo(before, after[id].parent) + [after[id].name]
    && forall k | k in before ::
         if Under(before, k, id)
         then PathNames(before, id) <= PathNames(before, k)
              && PathNames(after, k) == PathNames(after, id) + PathNames(before, k)[|PathNames(before, id)|..]
         else PathNames(after, k) == PathNames(before, k)
  }

  lemma EntryMovesPaths(tree: Tree, entry: KeywordEntry)
    requires Forest(tree) && Forest(tree[entry.id := entry]) && entry.id in tree
    ensures PathsFollow(tree, tree[entry.id := entry], entry.id)
  {
    hide PathNames;
    var after := tree[entry.id := entry];
    PathNamesStep(after, entry.id);
    if entry.parent.Some? {
      assert after == tree[entry.id := entry];
      NotUnderItself(tree, entry);
      OutsideKeepsPath(tree, entry, entry.parent.value);
    }
    forall k | k in tree
      ensures if Under(tree, k, entry.id)
              then PathNames(tree, entry.id) <= PathNames(tree, k)
                   && PathNames(after, k) == PathNames(after, entry.id)
                                             + PathNames(tree, k)[|PathNames(tree, entry.id)|..]
              else PathNames(after, k) == PathNames(tree, k)
    {
      if Under(tree, k, entry.id) {
        InsideKeepsRest(tree, entry, k);
      } else {
        OutsideKeepsPath(tree, entry, k);
      }
    }
  }

  /** In a forest the new parent is not of the branch. */
  lemma NotUnderItself(tree: Tree, entry: KeywordEntry)
    requires Forest(tree) && Forest(tree[entry.id := entry]) && entry.id in tree && entry.parent.Some?
    ensures entry.parent.value in tree && !Under(tree, entry.parent.value, entry.id)
  {
    var after := tree[entry.id := entry];
    assert after[entry.id] == entry;
    if Under(tree, entry.parent.value, entry.id) {
      MeetsIgnores(tree, after, entry.parent, entry.id, {});
      MeetsIsOnChain(after, entry.parent, entry.id, {});
    }
  }

  /** The same of the printed paths: what follows the keyword's path stays, letter for letter. */
  lemma PrintedPathsFollow(before: Tree, after: Tree, id: KeywordId, k: KeywordId) returns (rest: string)
    requires id in before && id in after && before.Keys == after.Keys && PathsFollow(before, after, id)
    requires Forest(before) && Forest(after)
    requires k in before && Under(before, k, id)
    ensures PathOf(before, k) == PathOf(before, id) + rest && PathOf(after, k) == PathOf(after, id) + rest
  {
    hide *;
    PathIsNotEmpty(before, id);
    PathIsNotEmpty(after, id);
    FollowedAt(before, after, id, k);
    Printed(before, id);
    Printed(before, k);
    Printed(after, id);
    Printed(after, k);
    var below := PathNames(before, k)[|PathNames(before, id)|..];
    assert PathNames(before, k) == PathNames(before, id) + below;
    if below == [] {
      assert PathNames(before, id) + [] == PathNames(before, id);
      assert PathNames(after, id) + [] == PathNames(after, id);
      rest := "";
    } else {
      JoinSplits(PathNames(before, id), below, '|');
      JoinSplits(PathNames(after, id), below, '|');
      rest := "|" + Join(below, '|');
      assert PathOf(before, k) == Join(PathNames(before, id), '|') + (['|'] + Join(below, '|'));
      assert PathOf(after, k) == Join(PathNames(after, id), '|') + (['|'] + Join(below, '|'));
    }
  }

  lemma PathIsNotEmpty(tree: Tree, k: KeywordId)
    requires Forest(tree) && k in tree
    ensures PathNames(tree, k) != []
  {
    PathNamesStep(tree, k);
  }

  lemma Printed(tree: Tree, k: KeywordId)
    ensures PathOf(tree, k) == Join(PathNames(tree, k), '|')
  {
  }

  lemma FollowedAt(before: Tree, after: Tree, id: KeywordId, k: KeywordId)
    requires id in before && id in after && before.Keys == after.Keys && PathsFollow(before, after, id)
    requires k in before
    ensures PathNames(after, id) == NamesTo(before, after[id].parent) + [after[id].name]
    ensures if Under(before, k, id)
            then PathNames(before, id) <= PathNames(before, k)
                 && PathNames(after, k) == PathNames(after, id) + PathNames(before, k)[|PathNames(before, id)|..]
            else PathNames(after, k) == PathNames(before, k)
  {
  }

  // ---------------------------------------------------------------- what the edits do

  /** What is left of a name can stand in a path. */
  predicate CanName(name: string) { Trim(name) != "" && '|' !in Trim(name) }

  /** Another keyword with this parent has the name, whatever the case. */
  predicate TakenBeside(tree: Tree, name: string, parent: Option<KeywordId>, id: KeywordId, fold: string -> string) {
    exists k :: k in tree && k != id && tree[k].parent == parent && fold(tree[k].name) == fold(name)
  }

  predicate Known(tree: Tree, parent: Option<KeywordId>) { parent.Some? ==> parent.value in tree }

  /** Why a keyword is not made, the first reason that holds; none when it is made. */
  predicate CreateRefused(tree: Tree, name: string, parent: Option<KeywordId>, id: KeywordId, why: Option<Refusal>,
                          fold: string -> string)
  {
    var taken := exists k :: k in tree && tree[k].parent == parent && fold(tree[k].name) == fold(Trim(name));
    && (why == None <==> CanName(name) && Known(tree, parent) && !taken && id !in tree)
    && (why == Some(KeywordName) <==> !CanName(name))
    && (why == Some(KeywordNotFound) <==> CanName(name) && !Known(tree, parent))
    && (why == Some(KeywordNameTaken) <==> CanName(name) && Known(tree, parent) && taken)
    && (why == Some(IdentifierUsed) <==> CanName(name) && Known(tree, parent) && !taken && id in tree)
  }

  /** The entry a keyword is made with: the name without the space around it, no synonyms, meant for export. */
  function EntryMade(name: string, parent: Option<KeywordId>, id: KeywordId): KeywordEntry {
    KeywordEntry(id, Trim(name), parent, [], true)
  }

  /** Making a keyword: the vocabulary gets the one entry; or why not. */
  predicate Creates(before: Tree, after: Tree, name: string, parent: Option<KeywordId>, id: KeywordId,
                    outcome: Planned, fold: string -> string)
  {
    && outcome != Nothing
    && CreateRefused(before, name, parent, id, if outcome.Refused? then Some(outcome.why) else None, fold)
    && after == if outcome.Deltas? then before[id := EntryMade(name, parent, id)] else before
  }

  /** Renaming: the one entry has the new name, without the space around it; or why not. */
  predicate Renames(before: Tree, after: Tree, id: KeywordId, name: string, outcome: Planned, fold: string -> string) {
    var taken := id in before && TakenBeside(before, Trim(name), before[id].parent, id, fold);
    && (outcome.Deltas? <==> CanName(name) && id in before && !taken)
    && after == (if outcome.Deltas? then before[id := before[id].(name := Trim(name))] else before)
    && outcome != Nothing
    && (outcome == Refused(KeywordName) <==> !CanName(name))
    && (outcome == Refused(KeywordNotFound) <==> CanName(name) && id !in before)
    && (outcome == Refused(KeywordNameTaken) <==> CanName(name) && id in before && taken)
  }

  /** Moving: the one entry has the new parent, exactly when it is another one, none or known, not of the branch, and
      the name is free there; or why not. */
  predicate Moves(before: Tree, after: Tree, id: KeywordId, newParent: Option<KeywordId>, outcome: Planned,
                  fold: string -> string)
  {
    var other := id in before && before[id].parent != newParent;
    var into := newParent.Some? && newParent.value in before && Under(before, newParent.value, id);
    var taken := id in before && TakenBeside(before, before[id].name, newParent, id, fold);
    && (outcome.Deltas? <==> other && Known(before, newParent) && !into && !taken)
    && after == (if outcome.Deltas? then before[id := before[id].(parent := newParent)] else before)
    && (outcome == Nothing <==> id in before && before[id].parent == newParent)
    && (outcome == Refused(KeywordNotFound) <==> id !in before || (other && !Known(before, newParent)))
    && (outcome == Refused(KeywordCycle) <==> other && into)
    && (outcome == Refused(KeywordNameTaken) <==> other && Known(before, newParent) && !into && taken)
  }

  /** New properties: the one entry has the synonyms and the export flag asked for, and is left alone when it has them
      already. */
  predicate Describes(before: Tree, after: Tree, id: KeywordId, synonyms: seq<string>, exported: bool,
                      outcome: Planned)
  {
    && (outcome == Refused(KeywordNotFound) <==> id !in before)
    && (outcome == Nothing <==> id in before && before[id].synonyms == synonyms && before[id].exported == exported)
    && (outcome.Deltas? <==> id in before && (before[id].synonyms != synonyms || before[id].exported != exported))
    && after == if outcome.Deltas? then before[id := before[id].(synonyms := synonyms, exported := exported)]
                else before
  }

  /** The vocabulary a plan leads to. */
  function After(tree: Tree, plan: Planned): Tree {
    if plan.Deltas? then Overlay(tree, plan.deltas, Redo) else tree
  }

  lemma AfterOne(tree: Tree, plan: Planned)
    requires plan.Deltas? ==> |plan.deltas| == 1 && plan.deltas[0].after.Some?
    ensures After(tree, plan) == if plan.Deltas? then tree[plan.deltas[0].id := plan.deltas[0].after.value] else tree
  {
    if plan.Deltas? {
      assert plan.deltas == [plan.deltas[0]];
      OverlayOne(tree, plan.deltas[0], Redo);
    }
  }

  lemma FreeIsNotTaken(tree: Tree, name: string, parent: Option<KeywordId>, id: KeywordId, fold: string -> string)
    ensures NameIsFree(tree, name, parent, Some(id), fold) <==> !TakenBeside(tree, name, parent, id, fold)
    ensures NameIsFree(tree, name, parent, None, fold) <==>
            !exists k :: k in tree && tree[k].parent == parent && fold(tree[k].name) == fold(name)
  {
  }

  lemma CreateDoes(tree: Tree, name: string, parent: Option<KeywordId>, id: KeywordId, fold: string -> string)
    ensures var plan := PlanCreate(tree, name, parent, id, fold);
            Creates(tree, After(tree, plan), name, parent, id, plan, fold)
  {
    FreeIsNotTaken(tree, Trim(name), parent, id, fold);
    hide Trim, NameIsFree, Overlay, After;
    AfterOne(tree, PlanCreate(tree, name, parent, id, fold));
  }

  lemma RenameDoes(tree: Tree, id: KeywordId, name: string, fold: string -> string)
    ensures var plan := PlanRename(tree, id, name, fold); Renames(tree, After(tree, plan), id, name, plan, fold)
  {
    if id in tree {
      FreeIsNotTaken(tree, Trim(name), tree[id].parent, id, fold);
    }
    hide Trim, NameIsFree, TakenBeside, Overlay, After;
    AfterOne(tree, PlanRename(tree, id, name, fold));
  }

  lemma MoveDoes(tree: Tree, id: KeywordId, newParent: Option<KeywordId>, fold: string -> string)
    ensures var plan := PlanMove(tree, id, newParent, fold); Moves(tree, After(tree, plan), id, newParent, plan, fold)
  {
    if id in tree {
      FreeIsNotTaken(tree, tree[id].name, newParent, id, fold);
    }
    hide Under, NameIsFree, TakenBeside, Overlay, After;
    AfterOne(tree, PlanMove(tree, id, newParent, fold));
  }

  lemma PropertiesDo(tree: Tree, id: KeywordId, synonyms: seq<string>, exported: bool)
    ensures var plan := PlanProperties(tree, id, synonyms, exported);
            Describes(tree, After(tree, plan), id, synonyms, exported, plan)
  {
    hide Overlay, After;
    AfterOne(tree, PlanProperties(tree, id, synonyms, exported));
  }

  // ---------------------------------------------------------------- and what becomes of the paths

  /** **A move moves the branch**: every path of it is the new parent's path followed by what was after the old
      parent's, and every other path stays. */
  lemma MovedPaths(before: Tree, after: Tree, id: KeywordId, newParent: Option<KeywordId>, outcome: Planned,
                   fold: string -> string)
    requires WellFormed(before, fold) && Moves(before, after, id, newParent, outcome, fold) && outcome.Deltas?
    ensures WellFormed(after, fold)
    ensures forall k | k in before ::
              if Under(before, k, id)
              then NamesTo(before, before[id].parent) <= PathNames(before, k)
                   && PathNames(after, k) == NamesTo(before, newParent)
                                             + PathNames(before, k)[|NamesTo(before, before[id].parent)|..]
              else PathNames(after, k) == PathNames(before, k)
  {
    hide PathNames, Under, Acyclic, SiblingsDiffer, NoMissingParent, NamesTo, PathsFollow;
    MoveKeepsForm(before, id, newParent, fold);
    EntryMovesPaths(before, after[id]);
    ParentIsThere(before, id, fold);
    PathNamesStep(before, id);
    forall k | k in before
      ensures if Under(before, k, id)
              then NamesTo(before, before[id].parent) <= PathNames(before, k)
                   && PathNames(after, k) == NamesTo(before, newParent)
                                             + PathNames(before, k)[|NamesTo(before, before[id].parent)|..]
              else PathNames(after, k) == PathNames(before, k)
    {
      FollowedAt(before, after, id, k);
      if Under(before, k, id) {
        AfterFirst(NamesTo(before, before[id].parent), NamesTo(before, newParent), before[id].name,
                   PathNames(before, k));
      }
    }
  }

  lemma ParentIsThere(tree: Tree, k: KeywordId, fold: string -> string)
    requires WellFormed(tree, fold) && k in tree
    ensures tree[k].parent.Some? ==> tree[k].parent.value in tree
  {
  }

  lemma MoveKeepsForm(before: Tree, id: KeywordId, newParent: Option<KeywordId>, fold: string -> string)
    requires WellFormed(before, fold) && id in before && Known(before, newParent)
    requires newParent.Some? ==> !Under(before, newParent.value, id)
    requires !TakenBeside(before, before[id].name, newParent, id, fold)
    ensures WellFormed(before[id := before[id].(parent := newParent)], fold)
  {
    MoveGuardIsExact(before, id, newParent);
    FreeIsNotTaken(before, before[id].name, newParent, id, fold);
    OneEntry(before, before[id].(parent := newParent), fold);
  }

  lemma AfterFirst(old_: seq<string>, new_: seq<string>, name: string, names: seq<string>)
    requires old_ + [name] <= names
    ensures new_ + [name] + names[|old_ + [name]|..] == new_ + names[|old_|..]
  {
    assert names[|old_|] == (old_ + [name])[|old_|];
  }

  /** A renamed keyword has the new name in every path of its branch, and no other path changes. */
  lemma RenamedPaths(before: Tree, after: Tree, id: KeywordId, name: string, outcome: Planned, fold: string -> string)
    requires WellFormed(before, fold) && Renames(before, after, id, name, outcome, fold) && outcome.Deltas?
    ensures WellFormed(after, fold)
    ensures forall k | k in before ::
              if Under(before, k, id)
              then PathNames(before, id) <= PathNames(before, k) && PathNames(before, id) != []
                   && PathNames(after, k) == PathNames(before, k)[|PathNames(before, id)| - 1 := Trim(name)]
              else PathNames(after, k) == PathNames(before, k)
  {
    hide PathNames, Under, Acyclic, SiblingsDiffer, NoMissingParent, NamesTo, PathsFollow, Trim;
    RenameKeepsForm(before, id, name, fold);
    EntryMovesPaths(before, after[id]);
    ParentIsThere(before, id, fold);
    PathNamesStep(before, id);
    forall k | k in before
      ensures if Under(before, k, id)
              then PathNames(before, id) <= PathNames(before, k) && PathNames(before, id) != []
                   && PathNames(after, k) == PathNames(before, k)[|PathNames(before, id)| - 1 := Trim(name)]
              else PathNames(after, k) == PathNames(before, k)
    {
      FollowedAt(before, after, id, k);
      if Under(before, k, id) {
        OneReplaced(NamesTo(before, before[id].parent), before[id].name, Trim(name), PathNames(before, k));
      }
    }
  }

  lemma RenameKeepsForm(before: Tree, id: KeywordId, name: string, fold: string -> string)
    requires WellFormed(before, fold) && id in before && CanName(name)
    requires !TakenBeside(before, Trim(name), before[id].parent, id, fold)
    ensures WellFormed(before[id := before[id].(name := Trim(name))], fold)
  {
    TrimFacts(name);
    FreeIsNotTaken(before, Trim(name), before[id].parent, id, fold);
    SameParentKeepsForest(before, before[id].(name := Trim(name)));
    OneEntry(before, before[id].(name := Trim(name)), fold);
  }

  lemma OneReplaced(above: seq<string>, name: string, new_: string, names: seq<string>)
    requires above + [name] <= names
    ensures above + [new_] + names[|above + [name]|..] == names[|above + [name]| - 1 := new_]
  {
    var after := names[|above + [name]| - 1 := new_];
    assert above == (above + [name])[..|above|] == names[..|above|];
  }

  /** A new keyword's path is its parent's with its name at the end, and no other path changes. */
  lemma CreatedPaths(before: Tree, after: Tree, name: string, parent: Option<KeywordId>, id: KeywordId,
                     outcome: Planned, fold: string -> string)
    requires WellFormed(before, fold) && Creates(before, after, name, parent, id, outcome, fold) && outcome.Deltas?
    ensures WellFormed(after, fold)
    ensures PathNames(after, id) == NamesTo(before, parent) + [Trim(name)]
    ensures forall k | k in before :: PathNames(after, k) == PathNames(before, k)
  {
    hide PathNames, Trim;
    TrimFacts(name);
    NewKeywordKeepsForest(before, after[id]);
    OneEntry(before, after[id], fold);
    PathNamesStep(after, id);
    forall k | k in before ensures PathNames(after, k) == PathNames(before, k) {
      OutsideKeepsPath(before, after[id], k);
    }
  }
}
