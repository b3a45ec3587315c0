// Keyword paths as text: a path is printed from a keyword and read back to one, making the keywords that are
// missing on the way.
module KeywordText {
  import opened Wrappers
  import opened Text
  import opened Vocabulary
  import opened VocabularyEdits

  /** The first keyword under `parent` whose folded name is `wanted`. */
  function Find(vocabulary: seq<KeywordEntry>, parent: Option<KeywordId>, wanted: string,
                fold: string -> string): Option<KeywordId> {
    if vocabulary == [] then None
    else if vocabulary[0].parent == parent && fold(vocabulary[0].name) == wanted then Some(vocabulary[0].id)
    else Find(vocabulary[1..], parent, wanted, fold)
  }

  /** The names a path text asks for: its pieces, trimmed, without the empty ones. */
  function PathSegments(path: string): seq<string> { Kept(Split(path, '|')) }

  /** One level down from `parent`: the keyword of that name, or a new one with the next identifier of `supply`. The
      vocabulary, the keyword and what is left of the supply. */
  function Down(vocabulary: seq<KeywordEntry>, parent: Option<KeywordId>, segment: string,
                supply: seq<KeywordId>, fold: string -> string)
    : (down: (seq<KeywordEntry>, Option<KeywordId>, seq<KeywordId>))
    requires supply != []
    ensures |down.2| + 1 >= |supply|
  {
    match Find(vocabulary, parent, fold(segment), fold)
    case Some(id) => (vocabulary, Some(id), supply)
    case None => (vocabulary + [KeywordEntry(supply[0], segment, parent, [], true)], Some(supply[0]), supply[1..])
  }

  /** Down from `parent` by names, making what is missing. */
  function Resolve(vocabulary: seq<KeywordEntry>, parent: Option<KeywordId>, segments: seq<string>,
                   supply: seq<KeywordId>, fold: string -> string)
    : (seq<KeywordEntry>, Option<KeywordId>)
    requires |supply| >= |segments|
    decreases |segments|
  {
    if segments == [] then (vocabulary, parent)
    else
      var (after, at, left) := Down(vocabulary, parent, segments[0], supply, fold);
      Resolve(after, at, segments[1..], left, fold)
  }

  /** Resolves a path text against a vocabulary, creating whatever segment does not exist yet: the vocabulary after,
      and the leaf. The identifiers drawn at random are given. */
  method ResolveKeywordPath(vocabulary: seq<KeywordEntry>, path: string, supply: seq<KeywordId>, fold: string -> string)
    returns (after: seq<KeywordEntry>, leaf: Option<KeywordId>)
    requires |supply| >= |PathSegments(path)|
    ensures (after, leaf) == Resolve(vocabulary, None, PathSegments(path), supply, fold)
  {
    var segments := PathSegments(path);
    after := vocabulary;
    leaf := None;
    var used := 0;
    for n := 0 to |segments|
      invariant used <= n
      invariant Resolve(vocabulary, None, segments, supply, fold) ==
                  Resolve(after, leaf, segments[n..], supply[used..], fold)
    {
      var existing := Find(after, leaf, fold(segments[n]), fold);
      assert segments[n..][1..] == segments[n + 1..];
      if existing.Some? {
        leaf := existing;
      } else {
        assert supply[used..][1..] == supply[used + 1..];
        after := after + [KeywordEntry(supply[used], segments[n], leaf, [], true)];
        leaf := Some(supply[used]);
        used := used + 1;
      }
    }
  }

  /** The same names, whatever the case. */
  predicate SameNames(a: seq<string>, b: seq<string>, fold: string -> string) {
    |a| == |b| && forall i | 0 <= i < |a| :: fold(a[i]) == fold(b[i])
  }

  predicate NamesOk(names: seq<string>) { forall i | 0 <= i < |names| :: NameOk(names[i]) }

  /** The names down to a keyword, none above the top level. */
  function NamesTo(tree: Tree, at: Option<KeywordId>): seq<string> {
    if at.None? then [] else PathNames(tree, at.value)
  }

  lemma {:induction false} FindFacts(vocabulary: seq<KeywordEntry>, parent: Option<KeywordId>, wanted: string,
                                     fold: string -> string)
    ensures var found := Find(vocabulary, parent, wanted, fold);
            && (found.Some? ==> exists e ::
                  e in vocabulary && e.id == found.value && e.parent == parent && fold(e.name) == wanted)
            && (found.None? ==> forall e | e in vocabulary :: !(e.parent == parent && fold(e.name) == wanted))
  {
    if vocabulary != [] && !(vocabulary[0].parent == parent && fold(vocabulary[0].name) == wanted) {
      FindFacts(vocabulary[1..], parent, wanted, fold);
      assert vocabulary == [vocabulary[0]] + vocabulary[1..];
    }
  }

  /** In a well-formed vocabulary a parent and a name find the one keyword they name, or none. */
  lemma FindInTree(vocabulary: seq<KeywordEntry>, parent: Option<KeywordId>, wanted: string, fold: string -> string)
    requires Distinct(vocabulary) && WellFormed(ById(vocabulary), fold)
    ensures var tree, found := ById(vocabulary), Find(vocabulary, parent, wanted, fold);
            && (found.Some? ==>
                  found.value in tree && tree[found.value].parent == parent && fold(tree[found.value].name) == wanted)
            && (forall k | k in tree && tree[k].parent == parent && fold(tree[k].name) == wanted :: found == Some(k))
  {
    ByIdHolds(vocabulary);
    FindFacts(vocabulary, parent, wanted, fold);
    var tree, found := ById(vocabulary), Find(vocabulary, parent, wanted, fold);
    forall k | k in tree && tree[k].parent == parent && fold(tree[k].name) == wanted
      ensures found == Some(k)
    {
      assert tree[k] in vocabulary;
      assert found.Some?;
    }
  }

  /** A keyword's path is its parent's and its own name. */
  lemma PathNamesStep(tree: Tree, k: KeywordId)
    requires Acyclic(tree) && k in tree
    requires tree[k].parent.Some? ==> tree[k].parent.value in tree
    ensures PathNames(tree, k) == NamesTo(tree, tree[k].parent) + [tree[k].name]
  {
    ChainStep(tree, k);
    ChainInTree(tree, Some(k), {});
    var chain := Chain(tree, Some(k), {});
    assert chain[1..] == Chain(tree, tree[k].parent, {});
  }

  // ---------------------------------------------------------------- reading back what is there

  lemma {:induction false} ResolveGrows(vocabulary: seq<KeywordEntry>, parent: Option<KeywordId>, segments: seq<string>,
                                        supply: seq<KeywordId>, fold: string -> string)
    requires |supply| >= |segments|
    ensures vocabulary <= Resolve(vocabulary, parent, segments, supply, fold).0
    decreases |segments|
  {
    if segments != [] {
      var (after, at, left) := Down(vocabulary, parent, segments[0], supply, fold);
      ResolveGrows(after, at, segments[1..], left, fold);
    }
  }

  lemma {:induction false} ResolveThrough(vocabulary: seq<KeywordEntry>, parent: Option<KeywordId>, first: seq<string>,
                                          rest: seq<string>, supply: seq<KeywordId>, fold: string -> string)
    requires |supply| >= |first| + |rest|
    requires Resolve(vocabulary, parent, first, supply, fold).0 == vocabulary
    ensures Resolve(vocabulary, parent, first + rest, supply, fold) ==
            Resolve(vocabulary, Resolve(vocabulary, parent, first, supply, fold).1, rest, supply, fold)
    decreases |first|
  {
    if first == [] {
      assert first + rest == rest;
    } else {
      assert (first + rest)[1..] == first[1..] + rest;
      var (after, at, left) := Down(vocabulary, parent, first[0], supply, fold);
      ResolveGrows(after, at, first[1..], left, fold);
      assert after == vocabulary && left == supply;
      ResolveThrough(vocabulary, at, first[1..], rest, supply, fold);
    }
  }

  /** Names that are a keyword's path, whatever the case, lead to that keyword and make nothing. */
  lemma {:induction false} ResolveFinds(vocabulary: seq<KeywordEntry>, k: KeywordId, segments: seq<string>,
                                        supply: seq<KeywordId>, fold: string -> string)
    requires Distinct(vocabulary) && WellFormed(ById(vocabulary), fold) && k in ById(vocabulary)
    requires SameNames(PathNames(ById(vocabulary), k), segments, fold) && |supply| >= |segments|
    ensures Resolve(vocabulary, None, segments, supply, fold) == (vocabulary, Some(k))
    decreases |segments|
  {
    hide WellFormed, Find, Resolve, Distinct, PathNames, ById;
    var tree := ById(vocabulary);
    NamesAbove(tree, k, segments, fold);
    FindsKeyword(vocabulary, k, segments[|segments| - 1], fold);
    var parent, front, last := tree[k].parent, segments[..|segments| - 1], segments[|segments| - 1];
    assert segments == front + [last];
    if parent.Some? {
      ResolveFinds(vocabulary, parent.value, front, supply, fold);
    } else {
      ResolveNothing(vocabulary, supply, fold);
    }
    ResolveOne(vocabulary, parent, k, last, supply, fold);
    ResolveThrough(vocabulary, None, front, [last], supply, fold);
  }

  lemma ResolveNothing(vocabulary: seq<KeywordEntry>, supply: seq<KeywordId>, fold: string -> string)
    ensures Resolve(vocabulary, None, [], supply, fold) == (vocabulary, None)
  {
  }

  /** Names that are a keyword's path end with its name, after names that are its parent's. */
  lemma NamesAbove(tree: Tree, k: KeywordId, segments: seq<string>, fold: string -> string)
    requires WellFormed(tree, fold) && k in tree && SameNames(PathNames(tree, k), segments, fold)
    ensures segments != [] && fold(segments[|segments| - 1]) == fold(tree[k].name)
    ensures var front := segments[..|segments| - 1];
            match tree[k].parent
            case None => front == []
            case Some(parent) => parent in tree && SameNames(PathNames(tree, parent), front, fold)
  {
    PathNamesStep(tree, k);
  }

  lemma FindsKeyword(vocabulary: seq<KeywordEntry>, k: KeywordId, segment: string, fold: string -> string)
    requires Distinct(vocabulary) && WellFormed(ById(vocabulary), fold) && k in ById(vocabulary)
    requires fold(ById(vocabulary)[k].name) == fold(segment)
    ensures Find(vocabulary, ById(vocabulary)[k].parent, fold(segment), fold) == Some(k)
  {
    FindInTree(vocabulary, ById(vocabulary)[k].parent, fold(segment), fold);
  }

  lemma ResolveOne(vocabulary: seq<KeywordEntry>, parent: Option<KeywordId>, k: KeywordId, segment: string,
                   supply: seq<KeywordId>, fold: string -> string)
    requires Find(vocabulary, parent, fold(segment), fold) == Some(k) && |supply| >= 1
    ensures Resolve(vocabulary, parent, [segment], supply, fold) == (vocabulary, Some(k))
  {
    hide Find;
    assert Resolve(vocabulary, Some(k), [segment][1..], supply, fold) == (vocabulary, Some(k));
  }

  lemma {:induction false} SegmentsOk(tree: Tree, chain: seq<KeywordId>)
    requires forall k | k in chain :: k in tree && NameOk(tree[k].name)
    ensures NamesOk(Segments(tree, chain))
  {
    if chain != [] {
      SegmentsOk(tree, chain[1..]);
    }
  }

  lemma SegmentsOfJoin(names: seq<string>)
    requires names != [] && NamesOk(names)
    ensures PathSegments(Join(names, '|')) == names
  {
    assert Without(names, '|');
    SplitJoin(names, '|');
    KeptTrimmed(names);
  }

  lemma SegmentsAreOk(path: string)
    ensures NamesOk(PathSegments(path))
  {
    SplitWithout(path, '|');
    KeptAreOk(Split(path, '|'));
  }

  lemma {:induction false} KeptAreOk(parts: seq<string>)
    requires Without(parts, '|')
    ensures NamesOk(Kept(parts))
  {
    if parts != [] {
      KeptAreOk(parts[..|parts| - 1]);
      TrimFacts(parts[|parts| - 1]);
    }
  }

  /** **Reading undoes printing**: a keyword's printed path resolves to that keyword, and changes nothing. */
  lemma PrintedPathResolves(vocabulary: seq<KeywordEntry>, k: KeywordId, supply: seq<KeywordId>, fold: string -> string)
    requires Distinct(vocabulary) && WellFormed(ById(vocabulary), fold) && k in ById(vocabulary)
    requires |supply| >= |PathSegments(PathOf(ById(vocabulary), k))|
    ensures Resolve(vocabulary, None, PathSegments(PathOf(ById(vocabulary), k)), supply, fold) == (vocabulary, Some(k))
  {
    var tree := ById(vocabulary);
    PrintedSegments(tree, k);
    ResolveFinds(vocabulary, k, PathNames(tree, k), supply, fold);
  }

  // ---------------------------------------------------------------- reading anything

  /** Identifiers not used yet, each once. */
  predicate Unused(tree: Tree, supply: seq<KeywordId>) {
    && (forall i | 0 <= i < |supply| :: supply[i] !in tree)
    && forall i, j | 0 <= i < j < |supply| :: supply[i] != supply[j]
  }

  lemma NewEntry(vocabulary: seq<KeywordEntry>, entry: KeywordEntry, fold: string -> string)
    requires Distinct(vocabulary) && WellFormed(ById(vocabulary), fold)
    requires entry.id !in ById(vocabulary) && NameOk(entry.name)
    requires entry.parent.Some? ==> entry.parent.value in ById(vocabulary)
    requires Find(vocabulary, entry.parent, fold(entry.name), fold).None?
    ensures Distinct(vocabulary + [entry]) && WellFormed(ById(vocabulary + [entry]), fold)
    ensures ById(vocabulary + [entry]) == ById(vocabulary)[entry.id := entry]
    ensures PathNames(ById(vocabulary + [entry]), entry.id) == NamesTo(ById(vocabulary), entry.parent) + [entry.name]
  {
    hide Acyclic, SiblingsDiffer, PathNames, Find, ById, Distinct;
    NewEntryForms(vocabulary, entry, fold);
    PathNamesStep(ById(vocabulary + [entry]), entry.id);
    if entry.parent.Some? {
      GrownPath(ById(vocabulary), entry, entry.parent.value);
    }
  }

  lemma NewEntryForms(vocabulary: seq<KeywordEntry>, entry: KeywordEntry, fold: string -> string)
    requires Distinct(vocabulary) && WellFormed(ById(vocabulary), fold)
    requires entry.id !in ById(vocabulary) && NameOk(entry.name)
    requires entry.parent.Some? ==> entry.parent.value in ById(vocabulary)
    requires Find(vocabulary, entry.parent, fold(entry.name), fold).None?
    ensures Distinct(vocabulary + [entry]) && WellFormed(ById(vocabulary + [entry]), fold)
    ensures ById(vocabulary + [entry]) == ById(vocabulary)[entry.id := entry]
  {
    hide Acyclic, SiblingsDiffer, Find, ById;
    ByIdHolds(vocabulary);
    ByIdAppend(vocabulary, entry);
    var tree := ById(vocabulary);
    assert forall e | e in vocabulary :: e.id in tree;
    FindInTree(vocabulary, entry.parent, fold(entry.name), fold);
    NewKeywordKeepsForest(tree, entry);
    OneEntry(tree, entry, fold);
  }

  /** A keyword that is added changes no path that was there. */
  lemma GrownPath(tree: Tree, entry: KeywordEntry, k: KeywordId)
    requires NoMissingParent(tree) && entry.id !in tree && k in tree
    ensures PathNames(tree[entry.id := entry], k) == PathNames(tree, k)
  {
    var grown := tree[entry.id := entry];
    ChainInTree(tree, Some(k), {});
    SameChain(grown, tree, Some(k), {});
    SameSegments(grown, tree, Chain(tree, Some(k), {}));
  }

  lemma SameNamesMiddle(a: seq<string>, front: seq<string>, x: string, y: string, rest: seq<string>,
                        fold: string -> string)
    requires SameNames(a, front + [x] + rest, fold) && fold(x) == fold(y)
    ensures SameNames(a, front + [y] + rest, fold)
  {
    forall i | 0 <= i < |a| ensures fold(a[i]) == fold((front + [y] + rest)[i]) {
      assert fold(a[i]) == fold((front + [x] + rest)[i]);
    }
  }

  /** One level down keeps the vocabulary well formed and arrives at a keyword of the name asked for. */
  lemma DownMakes(vocabulary: seq<KeywordEntry>, parent: Option<KeywordId>, segment: string,
                  supply: seq<KeywordId>, fold: string -> string) returns (name: string)
    requires Distinct(vocabulary) && WellFormed(ById(vocabulary), fold)
    requires supply != [] && Unused(ById(vocabulary), supply) && NameOk(segment)
    requires parent.Some? ==> parent.value in ById(vocabulary)
    ensures var (after, at, left) := Down(vocabulary, parent, segment, supply, fold);
            && Distinct(after) && WellFormed(ById(after), fold) && Unused(ById(after), left)
            && at.Some? && at.value in ById(after)
            && fold(name) == fold(segment)
            && PathNames(ById(after), at.value) == NamesTo(ById(vocabulary), parent) + [name]
  {
    FindInTree(vocabulary, parent, fold(segment), fold);
    match Find(vocabulary, parent, fold(segment), fold)
    case Some(id) =>
      PathNamesStep(ById(vocabulary), id);
      name := ById(vocabulary)[id].name;
    case None =>
      NewEntry(vocabulary, KeywordEntry(supply[0], segment, parent, [], true), fold);
      name := segment;
  }

  /** Reading has arrived at `leaf`, whose path says `wanted`, in a vocabulary that is still well formed. */
  ghost predicate Arrived(at: (seq<KeywordEntry>, Option<KeywordId>), wanted: seq<string>, fold: string -> string) {
    && Distinct(at.0) && WellFormed(ById(at.0), fold)
    && (at.1.Some? ==> at.1.value in ById(at.0))
    && SameNames(NamesTo(ById(at.0), at.1), wanted, fold)
  }

  lemma ArrivedAtOnce(vocabulary: seq<KeywordEntry>, parent: Option<KeywordId>, fold: string -> string)
    requires Distinct(vocabulary) && WellFormed(ById(vocabulary), fold)
    requires parent.Some? ==> parent.value in ById(vocabulary)
    ensures Arrived((vocabulary, parent), NamesTo(ById(vocabulary), parent), fold)
  {
    hide WellFormed, Distinct, ById, NamesTo;
  }

  lemma ArrivedOther(at: (seq<KeywordEntry>, Option<KeywordId>), front: seq<string>, x: string, y: string,
                     rest: seq<string>, fold: string -> string)
    requires Arrived(at, front + [x] + rest, fold) && fold(x) == fold(y)
    ensures Arrived(at, front + ([y] + rest), fold)
  {
    assert front + ([y] + rest) == front + [y] + rest;
    SameNamesMiddle(NamesTo(ById(at.0), at.1), front, x, y, rest, fold);
  }

  lemma {:induction false} ResolveMakes(vocabulary: seq<KeywordEntry>, parent: Option<KeywordId>, segments: seq<string>,
                                        supply: seq<KeywordId>, fold: string -> string)
    requires Distinct(vocabulary) && WellFormed(ById(vocabulary), fold)
    requires |supply| >= |segments| && Unused(ById(vocabulary), supply) && NamesOk(segments)
    requires parent.Some? ==> parent.value in ById(vocabulary)
    ensures Arrived(Resolve(vocabulary, parent, segments, supply, fold), NamesTo(ById(vocabulary), parent) + segments,
                    fold)
    decreases |segments|
  {
    hide WellFormed, Distinct, Unused, Arrived, ById, Down, Find, PathNames;
    if segments == [] {
      ArrivedAtOnce(vocabulary, parent, fold);
      assert NamesTo(ById(vocabulary), parent) + segments == NamesTo(ById(vocabulary), parent);
    } else {
      var name := DownMakes(vocabulary, parent, segments[0], supply, fold);
      var (after, at, left) := Down(vocabulary, parent, segments[0], supply, fold);
      ResolveMakes(after, at, segments[1..], left, fold);
      assert segments == [segments[0]] + segments[1..];
      ArrivedOther(Resolve(after, at, segments[1..], left, fold), NamesTo(ById(vocabulary), parent),
                   name, segments[0], segments[1..], fold);
    }
  }

  /** **Reading any path text**: when it holds a name at all, the result is a keyword whose printed path says those
      names whatever the case, everything that was there is still there, and the vocabulary stays well formed. */
  lemma AnyPathResolves(vocabulary: seq<KeywordEntry>, path: string, supply: seq<KeywordId>, fold: string -> string)
    requires Distinct(vocabulary) && WellFormed(ById(vocabulary), fold)
    requires Unused(ById(vocabulary), supply) && |supply| >= |PathSegments(path)|
    ensures var (after, leaf) := Resolve(vocabulary, None, PathSegments(path), supply, fold);
            && vocabulary <= after && Distinct(after) && WellFormed(ById(after), fold)
            && (leaf.Some? <==> PathSegments(path) != [])
            && (leaf.Some? ==>
                  && leaf.value in ById(after)
                  && SameNames(PathSegments(PathOf(ById(after), leaf.value)), PathSegments(path), fold))
  {
    var segments := PathSegments(path);
    SegmentsAreOk(path);
    ResolveGrows(vocabulary, None, segments, supply, fold);
    ResolveMakes(vocabulary, None, segments, supply, fold);
    assert [] + segments == segments;
    var (after, leaf) := Resolve(vocabulary, None, segments, supply, fold);
    if leaf.Some? {
      PathNamesStep(ById(after), leaf.value);
      PrintedSegments(ById(after), leaf.value);
    }
  }

  lemma PrintedSegments(tree: Tree, k: KeywordId)
    requires k in tree && forall j | j in tree :: NameOk(tree[j].name)
    ensures PathSegments(PathOf(tree, k)) == PathNames(tree, k)
  {
    ChainInTree(tree, Some(k), {});
    SegmentsOk(tree, Chain(tree, Some(k), {}));
    SegmentsOfJoin(PathNames(tree, k));
  }

  /** Reading a path text again makes nothing more, and arrives at the same keyword. */
  lemma ResolvingAgainMakesNothing(vocabulary: seq<KeywordEntry>, path: string, supply: seq<KeywordId>,
                                   again: seq<KeywordId>, fold: string -> string)
    requires Distinct(vocabulary) && WellFormed(ById(vocabulary), fold)
    requires Unused(ById(vocabulary), supply) && |supply| >= |PathSegments(path)| && |again| >= |PathSegments(path)|
    ensures var (after, leaf) := Resolve(vocabulary, None, PathSegments(path), supply, fold);
            Resolve(after, None, PathSegments(path), again, fold) == (after, leaf)
  {
    AnyPathResolves(vocabulary, path, supply, fold);
    var (after, leaf) := Resolve(vocabulary, None, PathSegments(path), supply, fold);
    if leaf.Some? {
      PrintedSegments(ById(after), leaf.value);
      ResolveFinds(after, leaf.value, PathSegments(path), again, fold);
    }
  }

  // ---------------------------------------------------------------- what reading makes

  /** Keywords made one under the other, from `above` down: each with its name as it was written, the next identifier of
      the supply, no synonyms, and meant for export. */
  predicate MadeInTurn(created: seq<KeywordEntry>, above: Option<KeywordId>, names: seq<string>,
                       supply: seq<KeywordId>) {
    && |created| == |names| <= |supply|
    && forall i | 0 <= i < |created| ::
         created[i] == MadeAt(above, names, supply, i)
  }

  function MadeAt(above: Option<KeywordId>, names: seq<string>, supply: seq<KeywordId>, i: nat): KeywordEntry
    requires i < |names| <= |supply|
  {
    KeywordEntry(supply[i], names[i], if i == 0 then above else Some(supply[i - 1]), [], true)
  }

  /** Nothing hangs from the keyword, nor from any of the supply. */
  predicate Childless(vocabulary: seq<KeywordEntry>, at: KeywordId, supply: seq<KeywordId>) {
    && (forall e | e in vocabulary ::
          e.parent != Some(at) && forall j | 0 <= j < |supply| :: e.parent != Some(supply[j]))
    && (forall j | 0 <= j < |supply| :: at != supply[j])
    && forall i, j | 0 <= i < j < |supply| :: supply[i] != supply[j]
  }

  lemma NothingMade(above: Option<KeywordId>, supply: seq<KeywordId>)
    ensures MadeInTurn([], above, [], supply)
  {
  }

  lemma MadeFirst(rest: seq<KeywordEntry>, above: Option<KeywordId>, names: seq<string>, supply: seq<KeywordId>)
    requires names != [] && supply != [] && MadeInTurn(rest, Some(supply[0]), names[1..], supply[1..])
    ensures MadeInTurn([KeywordEntry(supply[0], names[0], above, [], true)] + rest, above, names, supply)
  {
    var created := [KeywordEntry(supply[0], names[0], above, [], true)] + rest;
    forall i | 0 <= i < |created|
      ensures created[i] == MadeAt(above, names, supply, i)
    {
      if i > 0 {
        var j := i - 1;
        assert rest[j] == MadeAt(Some(supply[0]), names[1..], supply[1..], j);
      }
    }
  }

  lemma OneMoreChildless(vocabulary: seq<KeywordEntry>, at: KeywordId, name: string, supply: seq<KeywordId>)
    requires supply != [] && Childless(vocabulary, at, supply)
    ensures Childless(vocabulary + [KeywordEntry(supply[0], name, Some(at), [], true)], supply[0], supply[1..])
  {
  }

  lemma NewIsChildless(vocabulary: seq<KeywordEntry>, parent: Option<KeywordId>, name: string, supply: seq<KeywordId>)
    requires Distinct(vocabulary) && NoMissingParent(ById(vocabulary))
    requires supply != [] && Unused(ById(vocabulary), supply) && (parent.Some? ==> parent.value in ById(vocabulary))
    ensures Childless(vocabulary + [KeywordEntry(supply[0], name, parent, [], true)], supply[0], supply[1..])
  {
    ByIdHolds(vocabulary);
    hide ById;
    forall e | e in vocabulary ensures forall j | 0 <= j < |supply| :: e.parent != Some(supply[j]) {
      assert e.id in ById(vocabulary) && ById(vocabulary)[e.id] == e;
    }
  }

  lemma NoneFound(vocabulary: seq<KeywordEntry>, at: KeywordId, wanted: string, supply: seq<KeywordId>,
                  fold: string -> string)
    requires Childless(vocabulary, at, supply)
    ensures Find(vocabulary, Some(at), wanted, fold).None?
  {
    FindFacts(vocabulary, Some(at), wanted, fold);
  }

  /** Below a keyword from which nothing hangs everything is made. */
  lemma {:induction false} MakesTheRest(vocabulary: seq<KeywordEntry>, at: KeywordId, segments: seq<string>,
                                        supply: seq<KeywordId>, fold: string -> string)
    returns (created: seq<KeywordEntry>)
    requires |supply| >= |segments| && Childless(vocabulary, at, supply)
    ensures MadeInTurn(created, Some(at), segments, supply)
    ensures Resolve(vocabulary, Some(at), segments, supply, fold) ==
            (vocabulary + created, Some(if segments == [] then at else supply[|segments| - 1]))
    decreases |segments|
  {
    hide Find, Childless, MadeInTurn;
    if segments == [] {
      created := [];
      NothingMade(Some(at), supply);
      assert vocabulary + created == vocabulary;
    } else {
      var entry := KeywordEntry(supply[0], segments[0], Some(at), [], true);
      NoneFound(vocabulary, at, fold(segments[0]), supply, fold);
      OneMoreChildless(vocabulary, at, segments[0], supply);
      var rest := MakesTheRest(vocabulary + [entry], supply[0], segments[1..], supply[1..], fold);
      MadeFirst(rest, Some(at), segments, supply);
      created := [entry] + rest;
      assert vocabulary + created == vocabulary + [entry] + rest;
    }
  }

  /** The first `n` of the names lead down to a keyword, and nothing hangs from it with the next one. */
  ghost predicate LeadsTo(tree: Tree, parent: Option<KeywordId>, segments: seq<string>, n: nat, at: Option<KeywordId>,
                          fold: string -> string)
    requires n <= |segments|
  {
    && (at.Some? ==> at.value in tree) && SameNames(NamesTo(tree, at), NamesTo(tree, parent) + segments[..n], fold)
    && (n < |segments| ==>
          forall k | k in tree && tree[k].parent == at :: fold(tree[k].name) != fold(segments[n]))
  }

  lemma LeadsNowhere(tree: Tree, parent: Option<KeywordId>, segments: seq<string>, fold: string -> string)
    requires parent.Some? ==> parent.value in tree
    requires segments != [] ==>
               forall k | k in tree && tree[k].parent == parent :: fold(tree[k].name) != fold(segments[0])
    ensures LeadsTo(tree, parent, segments, 0, parent, fold)
  {
    hide PathNames;
    assert NamesTo(tree, parent) + segments[..0] == NamesTo(tree, parent);
  }

  lemma LeadsDown(tree: Tree, parent: Option<KeywordId>, found: KeywordId, segments: seq<string>, n: nat,
                  at: Option<KeywordId>, fold: string -> string)
    requires Acyclic(tree) && NoMissingParent(tree) && segments != [] && n < |segments|
    requires found in tree && tree[found].parent == parent && fold(tree[found].name) == fold(segments[0])
    requires LeadsTo(tree, Some(found), segments[1..], n, at, fold)
    ensures LeadsTo(tree, parent, segments, n + 1, at, fold)
  {
    hide PathNames, Acyclic, SameNames;
    PathNamesStep(tree, found);
    var above, rest := NamesTo(tree, parent), segments[1..][..n];
    Regrouped(above, segments, n);
    SameNamesMiddle(NamesTo(tree, at), above, tree[found].name, segments[0], rest, fold);
    if n + 1 < |segments| {
      assert segments[1..][n] == segments[n + 1];
    }
  }

  lemma Regrouped(above: seq<string>, segments: seq<string>, n: nat)
    requires n < |segments|
    ensures above + [segments[0]] + segments[1..][..n] == above + segments[..n + 1]
  {
    assert segments[..n + 1] == [segments[0]] + segments[1..][..n];
  }

  /** **Reading makes exactly what is missing**: it goes down as far as the names lead, and makes one keyword for each
      name after that, one under the other. */
  lemma {:induction false} ReadingMakesWhatIsMissing(vocabulary: seq<KeywordEntry>, parent: Option<KeywordId>,
                                                     segments: seq<string>, supply: seq<KeywordId>,
                                                     fold: string -> string)
    returns (n: nat, at: Option<KeywordId>, created: seq<KeywordEntry>)
    requires Distinct(vocabulary) && WellFormed(ById(vocabulary), fold) && Unused(ById(vocabulary), supply)
    requires |supply| >= |segments| && (parent.Some? ==> parent.value in ById(vocabulary))
    ensures n <= |segments| && LeadsTo(ById(vocabulary), parent, segments, n, at, fold)
    ensures MadeInTurn(created, at, segments[n..], supply)
    ensures Resolve(vocabulary, parent, segments, supply, fold) ==
            (vocabulary + created, if n == |segments| then at else Some(supply[|segments| - n - 1]))
    decreases |segments|
  {
    hide PathNames, Distinct, ById, Find, MadeInTurn, Unused, Acyclic, SiblingsDiffer, NoMissingParent, LeadsTo, NameOk;
    if segments == [] {
      n, at, created := 0, parent, [];
      NothingMade(parent, supply);
      LeadsNowhere(ById(vocabulary), parent, segments, fold);
      assert vocabulary + created == vocabulary;
    } else {
      FindInTree(vocabulary, parent, fold(segments[0]), fold);
      var found := Find(vocabulary, parent, fold(segments[0]), fold);
      if found.Some? {
        n, at, created := ReadingMakesWhatIsMissing(vocabulary, found, segments[1..], supply, fold);
        LeadsDown(ById(vocabulary), parent, found.value, segments, n, at, fold);
        assert segments[1..][n..] == segments[n + 1..];
        n := n + 1;
      } else {
        n, at := 0, parent;
        LeadsNowhere(ById(vocabulary), parent, segments, fold);
        NewIsChildless(vocabulary, parent, segments[0], supply);
        var entry := KeywordEntry(supply[0], segments[0], parent, [], true);
        var rest := MakesTheRest(vocabulary + [entry], supply[0], segments[1..], supply[1..], fold);
        MadeFirst(rest, parent, segments, supply);
        created := [entry] + rest;
        assert segments[0..] == segments && vocabulary + created == vocabulary + [entry] + rest;
      }
    }
  }
}
