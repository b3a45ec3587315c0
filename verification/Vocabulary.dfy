// The keyword vocabulary: a list of entries that name their parents, the chain of a keyword up to the top,
// its printed path, the branch under it, and what makes a vocabulary well formed.
module Vocabulary {
  import opened Wrappers
  import opened Text

  type KeywordId = nat

  datatype KeywordEntry = KeywordEntry(
    id: KeywordId, name: string, parent: Option<KeywordId>, synonyms: seq<string>, exported: bool)

  /** The entries by identifier: what every reader of the vocabulary works from. */
  type Tree = map<KeywordId, KeywordEntry>

  /** The vocabulary's file holds a list; a later entry of the same identifier hides an earlier one. */
  function ById(vocabulary: seq<KeywordEntry>): Tree {
    if vocabulary == [] then map[]
    else
      var last := vocabulary[|vocabulary| - 1];
      ById(vocabulary[..|vocabulary| - 1])[last.id := last]
  }

  predicate Distinct(vocabulary: seq<KeywordEntry>) {
    forall i, j | 0 <= i < j < |vocabulary| :: vocabulary[i].id != vocabulary[j].id
  }

  lemma {:induction false} ByIdHolds(vocabulary: seq<KeywordEntry>)
    requires Distinct(vocabulary)
    ensures forall i | 0 <= i < |vocabulary| ::
              vocabulary[i].id in ById(vocabulary) && ById(vocabulary)[vocabulary[i].id] == vocabulary[i]
    ensures forall k | k in ById(vocabulary) ::
              ById(vocabulary)[k].id == k && ById(vocabulary)[k] in vocabulary
  {
    if vocabulary != [] {
      ByIdHolds(vocabulary[..|vocabulary| - 1]);
    }
  }

  lemma {:induction false} ByIdNames(vocabulary: seq<KeywordEntry>)
    ensures forall e | e in vocabulary :: e.id in ById(vocabulary)
    ensures forall k | k in ById(vocabulary) :: ById(vocabulary)[k].id == k && ById(vocabulary)[k] in vocabulary
  {
    if vocabulary != [] {
      var front, last := vocabulary[..|vocabulary| - 1], vocabulary[|vocabulary| - 1];
      ByIdNames(front);
      assert vocabulary == front + [last];
    }
  }

  // ---------------------------------------------------------------- chains and paths

  /** From `current` up by the parents, nearest first, stopping at the top, at a parent that is not there and
      at one already `seen` (a cycle). */
  function Chain(tree: Tree, current: Option<KeywordId>, seen: set<KeywordId>): seq<KeywordId>
    decreases tree.Keys - seen
  {
    if current.None? || current.value in seen || current.value !in tree then []
    else [current.value] + Chain(tree, tree[current.value].parent, seen + {current.value})
  }

  /** The names along a chain, root first. */
  function Segments(tree: Tree, chain: seq<KeywordId>): (names: seq<string>)
    requires forall k | k in chain :: k in tree
    ensures |names| == |chain|
  {
    if chain == [] then [] else Segments(tree, chain[1..]) + [tree[chain[0]].name]
  }

  lemma {:induction false} ChainInTree(tree: Tree, current: Option<KeywordId>, seen: set<KeywordId>)
    ensures forall k | k in Chain(tree, current, seen) :: k in tree && k !in seen
    decreases tree.Keys - seen
  {
    if current.Some? && current.value !in seen && current.value in tree {
      ChainInTree(tree, tree[current.value].parent, seen + {current.value});
    }
  }

  /** The names of a keyword's path, root first (`Fauna`, `Birds`, `Heron`). */
  function PathNames(tree: Tree, id: KeywordId): seq<string> {
    ChainInTree(tree, Some(id), {});
    Segments(tree, Chain(tree, Some(id), {}))
  }

  /** A keyword's printed path (`Fauna|Birds|Heron`). */
  function PathOf(tree: Tree, id: KeywordId): string { Join(PathNames(tree, id), '|') }

  /** The names an entry's own walk gives: its name, below those of its parents. */
  function WalkedNames(tree: Tree, entry: KeywordEntry): seq<string> {
    ChainInTree(tree, entry.parent, {entry.id});
    Segments(tree, Chain(tree, entry.parent, {entry.id})) + [entry.name]
  }

  lemma WalkIsPath(tree: Tree, k: KeywordId)
    requires k in tree && tree[k].id == k
    ensures Join(WalkedNames(tree, tree[k]), '|') == PathOf(tree, k)
  {
    var above := Chain(tree, tree[k].parent, {k});
    assert {} + {k} == {k};
    assert Chain(tree, Some(k), {}) == [k] + above && ([k] + above)[1..] == above;
  }

  ghost function Walked(tree: Tree, vocabulary: seq<KeywordEntry>): map<KeywordId, string> {
    map k | k in ById(vocabulary) :: Join(WalkedNames(tree, ById(vocabulary)[k]), '|')
  }

  /** The path of every keyword, walking the chain of each entry once with the set of keywords already met on it; of
      the entries of one identifier the last one's stays. */
  method KeywordPaths(vocabulary: seq<KeywordEntry>) returns (paths: map<KeywordId, string>)
    ensures paths == map k | k in ById(vocabulary) :: PathOf(ById(vocabulary), k)
  {
    hide WalkedNames, PathOf, Join;
    ByIdNames(vocabulary);
    var byId := ById(vocabulary);
    paths := map[];
    for n := 0 to |vocabulary|
      invariant paths == Walked(byId, vocabulary[..n])
    {
      assert vocabulary[..n + 1][..n] == vocabulary[..n];
      var path := PathByWalk(byId, vocabulary[n]);
      paths := paths[vocabulary[n].id := path];
    }
    assert vocabulary[..|vocabulary|] == vocabulary;
    forall k | k in byId ensures Join(WalkedNames(byId, byId[k]), '|') == PathOf(byId, k) {
      WalkIsPath(byId, k);
    }
  }

  /** One entry's path: up from it, remembering the keywords met, then reversed. */
  method PathByWalk(byId: Tree, entry: KeywordEntry) returns (path: string)
    ensures path == Join(WalkedNames(byId, entry), '|')
  {
    var segments := [entry.name];
    var current := entry.parent;
    var seen := {entry.id};
    ghost var walked := [];
    ghost var above := Chain(byId, entry.parent, {entry.id});
    while current.Some?
      invariant seen <= byId.Keys + {entry.id}
      invariant forall k | k in walked :: k in byId
      invariant walked + Chain(byId, current, seen) == above
      invariant segments == [entry.name] + Upward(byId, walked)
      decreases byId.Keys + {entry.id} - seen
    {
      var parentId := current.value;
      if parentId in seen {
        break;
      }
      if parentId !in byId {
        break;
      }
      seen := seen + {parentId};
      walked := walked + [parentId];
      segments := segments + [byId[parentId].name];
      current := byId[parentId].parent;
    }
    assert walked == above;
    UpwardReversed(byId, walked);
    assert segments[1..] == Upward(byId, walked);
    path := Join(Reversed(segments), '|');
  }

  /** The names along a chain in the order the walk meets them. */
  ghost function Upward(tree: Tree, chain: seq<KeywordId>): seq<string>
    requires forall k | k in chain :: k in tree
  {
    seq(|chain|, i requires 0 <= i < |chain| => tree[chain[i]].name)
  }

  function Reversed(s: seq<string>): seq<string> {
    if s == [] then [] else Reversed(s[1..]) + [s[0]]
  }

  lemma {:induction false} UpwardReversed(tree: Tree, chain: seq<KeywordId>)
    requires forall k | k in chain :: k in tree
    ensures Reversed(Upward(tree, chain)) == Segments(tree, chain)
  {
    if chain != [] {
      assert Upward(tree, chain)[1..] == Upward(tree, chain[1..]);
      UpwardReversed(tree, chain[1..]);
    }
  }

  // ---------------------------------------------------------------- the branch under a keyword

  /** Whether the walk from `current` meets `id`, which is asked before anything else about it. */
  predicate Meets(tree: Tree, current: Option<KeywordId>, id: KeywordId, seen: set<KeywordId>)
    decreases tree.Keys - seen
  {
    && current.Some?
    && (current.value == id
        || (current.value !in seen && current.value in tree
            && Meets(tree, tree[current.value].parent, id, seen + {current.value})))
  }

  /** `below` is `id` or somewhere under it. */
  predicate Under(tree: Tree, below: KeywordId, id: KeywordId) { Meets(tree, Some(below), id, {}) }

  lemma {:induction false} MeetsIsOnChain(tree: Tree, current: Option<KeywordId>, id: KeywordId, seen: set<KeywordId>)
    requires id in tree && id !in seen
    ensures Meets(tree, current, id, seen) <==> id in Chain(tree, current, seen)
    decreases tree.Keys - seen
  {
    if current.Some? && current.value != id && current.value !in seen && current.value in tree {
      MeetsIsOnChain(tree, tree[current.value].parent, id, seen + {current.value});
    }
  }

  /** `id` and every keyword whose parent chain includes it, in the order of the vocabulary. */
  method DescendantsOf(vocabulary: seq<KeywordEntry>, id: KeywordId) returns (branch: seq<KeywordId>)
    ensures forall k :: k in branch <==> k in ById(vocabulary) && Under(ById(vocabulary), k, id)
    ensures Distinct(vocabulary) ==> forall i, j | 0 <= i < j < |branch| :: branch[i] != branch[j]
  {
    ByIdNames(vocabulary);
    var byId := ById(vocabulary);
    branch := [];
    for n := 0 to |vocabulary|
      invariant Distinct(vocabulary) ==> forall i, j | 0 <= i < j < |branch| :: branch[i] != branch[j]
      invariant forall k | k in branch :: Under(byId, k, id) && exists i :: 0 <= i < n && vocabulary[i].id == k
      invariant forall i | 0 <= i < n && Under(byId, vocabulary[i].id, id) :: vocabulary[i].id in branch
    {
      var current := Some(vocabulary[n].id);
      var seen := {};
      while current.Some?
        invariant seen <= byId.Keys
        invariant Meets(byId, current, id, seen) == Under(byId, vocabulary[n].id, id)
        decreases byId.Keys - seen, current.Some?
      {
        if current.value == id {
          branch := branch + [vocabulary[n].id];
          break;
        }
        if current.value in seen {
          break;
        }
        var at := current.value;
        current := if at in byId then byId[at].parent else None;
        if at in byId {
          seen := seen + {at};
        }
      }
    }
  }

  // ---------------------------------------------------------------- well-formed vocabularies

  /** Every parent is there. */
  predicate NoMissingParent(tree: Tree) {
    forall k | k in tree :: tree[k].parent.Some? ==> tree[k].parent.value in tree
  }

  /** No keyword is above itself. */
  predicate Acyclic(tree: Tree) {
    forall k | k in tree :: k !in Chain(tree, tree[k].parent, {})
  }

  predicate NameOk(name: string) { name != "" && Trimmed(name) && '|' !in name }

  /** Two siblings do not share a name, whatever the case. */
  predicate SiblingsDiffer(tree: Tree, fold: string -> string) {
    forall j, k | j in tree && k in tree && j != k && tree[j].parent == tree[k].parent ::
      fold(tree[j].name) != fold(tree[k].name)
  }

  /** What every command keeps: a forest whose siblings differ and whose names can stand in a path. */
  predicate WellFormed(tree: Tree, fold: string -> string) {
    && (forall k | k in tree :: tree[k].id == k && NameOk(tree[k].name))
    && NoMissingParent(tree)
    && Acyclic(tree)
    && SiblingsDiffer(tree, fold)
  }

  // ---------------------------------------------------------------- facts about chains

  /** A keyword the walk does not meet can be added to the ones it would stop at. */
  lemma {:induction false} SeenIrrelevant(tree: Tree, current: Option<KeywordId>, seen: set<KeywordId>, k: KeywordId)
    requires k !in Chain(tree, current, seen)
    ensures Chain(tree, current, seen + {k}) == Chain(tree, current, seen)
    decreases tree.Keys - seen
  {
    if current.Some? && current.value !in seen && current.value in tree {
      assert k != current.value;
      SeenIrrelevant(tree, tree[current.value].parent, seen + {current.value}, k);
      assert seen + {current.value} + {k} == seen + {k} + {current.value};
    }
  }

  /** In a forest the walk never needs to remember where it has been. */
  lemma ChainStep(tree: Tree, k: KeywordId)
    requires Acyclic(tree) && k in tree
    ensures Chain(tree, Some(k), {}) == [k] + Chain(tree, tree[k].parent, {})
  {
    SeenIrrelevant(tree, tree[k].parent, {}, k);
    assert {} + {k} == {k};
  }

  /** Two trees that hold the same entries along a chain, and agree on what its end finds missing, walk the same
      chain. */
  lemma {:induction false} SameChain(a: Tree, b: Tree, current: Option<KeywordId>, seen: set<KeywordId>)
    requires forall k | k in Chain(b, current, seen) :: k in a && k in b && a[k] == b[k]
    requires forall k | k in Chain(b, current, seen) && b[k].parent.Some? && b[k].parent.value !in b ::
               b[k].parent.value !in a
    requires current.Some? && current.value !in b ==> current.value !in a
    ensures Chain(a, current, seen) == Chain(b, current, seen)
    decreases b.Keys - seen
  {
    if current.Some? && current.value !in seen && current.value in b {
      SameChain(a, b, b[current.value].parent, seen + {current.value});
    }
  }

  lemma {:induction false} SameSegments(a: Tree, b: Tree, chain: seq<KeywordId>)
    requires forall k | k in chain :: k in a && k in b && a[k].name == b[k].name
    ensures Segments(a, chain) == Segments(b, chain)
  {
    if chain != [] {
      SameSegments(a, b, chain[1..]);
    }
  }

  /** The chain of a keyword on a chain is the rest of that chain (in a forest). */
  lemma {:induction false} ChainSuffix(tree: Tree, current: Option<KeywordId>, k: KeywordId)
    requires Acyclic(tree) && k in Chain(tree, current, {})
    ensures k in tree
    ensures exists i :: 0 <= i < |Chain(tree, current, {})| && Chain(tree, current, {})[i..] == Chain(tree, Some(k), {})
    decreases |Chain(tree, current, {})|
  {
    ChainInTree(tree, current, {});
    var chain := Chain(tree, current, {});
    var top := current.value;
    ChainStep(tree, top);
    if k == top {
      assert chain[0..] == Chain(tree, Some(k), {});
    } else {
      var above := Chain(tree, tree[top].parent, {});
      ChainSuffix(tree, tree[top].parent, k);
      var i :| 0 <= i < |above| && above[i..] == Chain(tree, Some(k), {});
      assert chain[i + 1..] == above[i..];
    }
  }

  /** Under is transitive in a forest. */
  lemma UnderTransitive(tree: Tree, a: KeywordId, b: KeywordId, c: KeywordId)
    requires Acyclic(tree) && b in tree && c in tree && Under(tree, a, b) && Under(tree, b, c)
    ensures Under(tree, a, c)
  {
    MeetsIsOnChain(tree, Some(a), b, {});
    MeetsIsOnChain(tree, Some(b), c, {});
    MeetsIsOnChain(tree, Some(a), c, {});
    ChainSuffix(tree, Some(a), b);
  }
}
