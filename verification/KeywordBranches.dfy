// The two notions of a keyword's branch: the ones the parents say, and the ones the catalogue selects by the prefix
// of the path.
module KeywordBranches {
  import opened Wrappers
  import opened Text
  import opened Vocabulary
  import opened KeywordText

  /** SQLite's LIKE ignores the case of the ASCII letters, and of nothing else. */
  function AsciiLower(c: char): char {
    if 'A' <= c <= 'Z' then (c as int + 32) as char else c
  }

  function Lower(text: string): (lower: string)
    ensures |lower| == |text|
  {
    seq(|text|, i requires 0 <= i < |text| => AsciiLower(text[i]))
  }

  /** `text LIKE pattern`. */
  predicate Like(pattern: string, text: string)
    decreases |pattern| + |text|
  {
    if pattern == "" then text == ""
    else if pattern[0] == '%' then Like(pattern[1..], text) || (text != "" && Like(pattern, text[1..]))
    else
      && text != "" && (pattern[0] == '_' || AsciiLower(pattern[0]) == AsciiLower(text[0]))
      && Like(pattern[1..], text[1..])
  }

  /** The text cut into one piece for each character of the pattern: any piece for `%`, one character for `_`, and for
      any other that character, whatever the case of an ASCII letter. */
  predicate Fits(pattern: string, text: string, cuts: seq<nat>) {
    && |cuts| == |pattern| + 1 && cuts[0] == 0 && cuts[|pattern|] == |text|
    && forall i | 0 <= i < |pattern| :: PieceFits(pattern[i], text, cuts[i], cuts[i + 1])
  }

  predicate PieceFits(c: char, text: string, from: nat, end: nat) {
    && from <= end <= |text|
    && (c != '%' ==> end == from + 1 && (c == '_' || AsciiLower(c) == AsciiLower(text[from])))
  }

  lemma {:induction false} LikeFits(pattern: string, text: string) returns (cuts: seq<nat>)
    requires Like(pattern, text)
    ensures Fits(pattern, text, cuts)
    decreases |pattern| + |text|
  {
    if pattern == "" {
      cuts := [0];
    } else if pattern[0] == '%' && !Like(pattern[1..], text) {
      var later := LikeFits(pattern, text[1..]);
      cuts := [0] + Further(later[1..]);
      forall i | 0 <= i < |pattern| ensures PieceFits(pattern[i], text, cuts[i], cuts[i + 1]) {
        assert PieceFits(pattern[i], text[1..], later[i], later[i + 1]);
      }
    } else {
      var here := if pattern[0] == '%' then 0 else 1;
      var rest := LikeFits(pattern[1..], text[here..]);
      cuts := [0] + if here == 0 then rest else Further(rest);
      forall i | 0 <= i < |pattern| ensures PieceFits(pattern[i], text, cuts[i], cuts[i + 1]) {
        if i > 0 {
          assert PieceFits(pattern[1..][i - 1], text[here..], rest[i - 1], rest[i]);
        }
      }
    }
  }

  /** The places one character further on. */
  function Further(cuts: seq<nat>): seq<nat> { seq(|cuts|, i requires 0 <= i < |cuts| => cuts[i] + 1) }

  lemma {:induction false} FitsLike(pattern: string, text: string, cuts: seq<nat>)
    requires Fits(pattern, text, cuts)
    ensures Like(pattern, text)
    decreases |pattern|
  {
    if pattern != "" {
      var at := cuts[1];
      assert PieceFits(pattern[0], text, cuts[0], cuts[1]);
      CutsAscend(pattern, text, cuts);
      var rest := seq(|pattern|, i requires 0 <= i < |pattern| => cuts[i + 1] - at);
      forall i | 0 <= i < |pattern[1..]| ensures PieceFits(pattern[1..][i], text[at..], rest[i], rest[i + 1]) {
        assert PieceFits(pattern[i + 1], text, cuts[i + 1], cuts[i + 2]);
      }
      FitsLike(pattern[1..], text[at..], rest);
      if pattern[0] == '%' {
        AnythingFirst(pattern, text, at);
      }
    }
  }

  lemma CutsAscend(pattern: string, text: string, cuts: seq<nat>)
    requires Fits(pattern, text, cuts) && pattern != ""
    ensures forall i | 1 <= i <= |pattern| :: cuts[1] <= cuts[i] <= |text|
  {
    var i := 1;
    while i < |pattern|
      invariant 1 <= i <= |pattern| && forall j | 1 <= j <= i :: cuts[1] <= cuts[j] <= |text|
    {
      assert PieceFits(pattern[i], text, cuts[i], cuts[i + 1]);
      i := i + 1;
    }
  }

  lemma {:induction false} AnythingFirst(pattern: string, text: string, n: nat)
    requires pattern != "" && pattern[0] == '%' && n <= |text| && Like(pattern[1..], text[n..])
    ensures Like(pattern, text)
    decreases n
  {
    if n == 0 {
      assert text[0..] == text;
    } else {
      assert text[1..][n - 1..] == text[n..];
      AnythingFirst(pattern, text[1..], n - 1);
    }
  }

  /** **A text is like a pattern exactly when it can be cut to fit it.** */
  lemma LikeIsFit(pattern: string, text: string)
    ensures Like(pattern, text) <==> exists cuts :: Fits(pattern, text, cuts)
  {
    if Like(pattern, text) {
      var cuts := LikeFits(pattern, text);
    }
    if cuts :| Fits(pattern, text, cuts) {
      FitsLike(pattern, text, cuts);
    }
  }

  /** The keywords a filter or a listing by keyword selects: the keyword, or a path the pattern of its own matches. */
  predicate Selected(tree: Tree, k: KeywordId, id: KeywordId) {
    k == id || Like(PathOf(tree, id) + "|%", PathOf(tree, k))
  }

  predicate NoWildcard(text: string) { '%' !in text && '_' !in text }

  lemma {:induction false} LikeAnything(text: string)
    ensures Like("%", text)
  {
    if text == "" {
      assert "%"[1..] == "";
    } else {
      LikeAnything(text[1..]);
    }
  }

  /** A text matches itself as a pattern, whatever wildcards it holds, with anything after. */
  lemma {:induction false} LikeItself(text: string, more: string)
    ensures Like(text + "%", text + more)
  {
    if text == "" {
      assert text + more == more && text + "%" == "%";
      LikeAnything(more);
    } else {
      assert (text + "%")[1..] == text[1..] + "%" && (text + more)[1..] == text[1..] + more;
      LikeItself(text[1..], more);
      if text[0] == '%' {
        LikeMore(text[1..] + "%", (text + more)[1..]);
        assert Like(text + "%", (text + more)[1..]);
      }
    }
  }

  /** What a pattern matches, it matches after a wildcard. */
  lemma LikeMore(pattern: string, text: string)
    requires Like(pattern, text)
    ensures Like("%" + pattern, text)
  {
    assert ("%" + pattern)[1..] == pattern;
  }

  lemma LowerCons(text: string)
    requires text != ""
    ensures Lower(text)[0] == AsciiLower(text[0]) && Lower(text)[1..] == Lower(text[1..])
  {
  }

  lemma {:induction false} LikePrefix(prefix: string, text: string)
    requires NoWildcard(prefix)
    ensures Like(prefix + "%", text) <==> |text| >= |prefix| && Lower(text[..|prefix|]) == Lower(prefix)
  {
    if prefix == "" {
      assert prefix + "%" == "%";
      LikeAnything(text);
      assert Lower(text[..0]) == Lower("");
    } else if text != "" {
      assert (prefix + "%")[1..] == prefix[1..] + "%";
      LikePrefix(prefix[1..], text[1..]);
      if |text| >= |prefix| {
        LowerCons(text[..|prefix|]);
        LowerCons(prefix);
        assert text[..|prefix|][1..] == text[1..][..|prefix| - 1];
        var a, b := Lower(text[..|prefix|]), Lower(prefix);
        assert a == b <==> a[0] == b[0] && a[1..] == b[1..];
      }
    }
  }

  // ---------------------------------------------------------------- paths and their prefixes

  function LowerAll(names: seq<string>): seq<string> {
    seq(|names|, i requires 0 <= i < |names| => Lower(names[i]))
  }

  lemma {:induction false} LowerJoin(names: seq<string>)
    ensures Lower(Join(names, '|')) == Join(LowerAll(names), '|')
  {
    if |names| > 1 {
      var front, last := names[..|names| - 1], names[|names| - 1];
      LowerJoin(front);
      assert LowerAll(names)[..|names| - 1] == LowerAll(front);
      assert Lower(Join(front, '|') + ['|'] + last) == Lower(Join(front, '|')) + ['|'] + Lower(last);
    }
  }

  lemma {:induction false} AncestorNames(tree: Tree, k: KeywordId, x: KeywordId)
    requires Acyclic(tree) && NoMissingParent(tree) && k in tree && x in Chain(tree, Some(k), {})
    ensures x in tree && PathNames(tree, x) <= PathNames(tree, k)
    decreases |Chain(tree, Some(k), {})|
  {
    hide SiblingsDiffer;
    PathNamesStep(tree, k);
    ChainStep(tree, k);
    if x != k {
      AncestorNames(tree, tree[k].parent.value, x);
    }
  }

  lemma {:induction false} AncestorAt(tree: Tree, k: KeywordId, n: nat) returns (x: KeywordId)
    requires Acyclic(tree) && NoMissingParent(tree) && k in tree && 0 < n <= |PathNames(tree, k)|
    ensures x in tree && x in Chain(tree, Some(k), {}) && PathNames(tree, x) == PathNames(tree, k)[..n]
    decreases |Chain(tree, Some(k), {})|
  {
    PathNamesStep(tree, k);
    ChainStep(tree, k);
    if n == |PathNames(tree, k)| {
      x := k;
    } else {
      x := AncestorAt(tree, tree[k].parent.value, n);
      assert PathNames(tree, k)[..n] == PathNames(tree, tree[k].parent.value)[..n];
    }
  }

  /** Two keywords whose paths say the same names, whatever the case, are one keyword. */
  lemma {:induction false} SamePathSameKeyword(tree: Tree, a: KeywordId, b: KeywordId, fold: string -> string)
    requires WellFormed(tree, fold) && a in tree && b in tree
    requires SameNames(PathNames(tree, a), PathNames(tree, b), fold)
    ensures a == b
    decreases |PathNames(tree, a)|
  {
    PathNamesStep(tree, a);
    PathNamesStep(tree, b);
    var na, nb := PathNames(tree, a), PathNames(tree, b);
    assert fold(na[|na| - 1]) == fold(nb[|nb| - 1]);
    if tree[a].parent.Some? && tree[b].parent.Some? {
      assert na[..|na| - 1] == PathNames(tree, tree[a].parent.value);
      assert nb[..|nb| - 1] == PathNames(tree, tree[b].parent.value);
      SamePathSameKeyword(tree, tree[a].parent.value, tree[b].parent.value, fold);
    } else if tree[a].parent.Some? {
      PathNamesStep(tree, tree[a].parent.value);
    } else if tree[b].parent.Some? {
      PathNamesStep(tree, tree[b].parent.value);
    }
  }

  // ---------------------------------------------------------------- the two branches

  /** Everything under a keyword is selected by its path, whatever characters the names hold. */
  lemma BranchIsSelected(tree: Tree, k: KeywordId, id: KeywordId)
    requires Acyclic(tree) && NoMissingParent(tree) && k in tree && id in tree && Under(tree, k, id)
    ensures Selected(tree, k, id)
  {
    MeetsIsOnChain(tree, Some(k), id, {});
    if k != id {
      AncestorNames(tree, k, id);
      DeeperBelow(tree, k, id);
      PathNamesStep(tree, id);
      var above, all := PathNames(tree, id), PathNames(tree, k);
      assert all == above + all[|above|..];
      JoinSplits(above, all[|above|..], '|');
      LikeItself(PathOf(tree, id) + "|", Join(all[|above|..], '|'));
      assert PathOf(tree, id) + "|" + "%" == PathOf(tree, id) + "|%";
    }
  }

  lemma {:induction false} DeeperBelow(tree: Tree, k: KeywordId, x: KeywordId)
    requires Acyclic(tree) && NoMissingParent(tree) && k in tree && x in Chain(tree, Some(k), {}) && x != k
    ensures x in tree && |PathNames(tree, x)| < |PathNames(tree, k)|
    decreases |Chain(tree, Some(k), {})|
  {
    PathNamesStep(tree, k);
    ChainStep(tree, k);
    if x != tree[k].parent.value {
      DeeperBelow(tree, tree[k].parent.value, x);
    }
  }

  /** The case SQLite ignores is case the vocabulary ignores too. */
  ghost predicate FoldsAsciiCase(fold: string -> string) {
    forall a, b :: Lower(a) == Lower(b) ==> fold(a) == fold(b)
  }

  /** A path that holds another and a separator, whatever the case, holds its names first. */
  lemma PrefixNames(tree: Tree, k: KeywordId, id: KeywordId)
    requires k in tree && id in tree && forall j | j in tree :: NameOk(tree[j].name)
    requires var p := PathOf(tree, id) + "|"; |PathOf(tree, k)| >= |p| && Lower(PathOf(tree, k)[..|p|]) == Lower(p)
    ensures |PathNames(tree, id)| <= |PathNames(tree, k)|
    ensures LowerAll(PathNames(tree, id)) == LowerAll(PathNames(tree, k)[..|PathNames(tree, id)|])
  {
    hide PathOf, PathNames, NameOk, Split;
    var a, b := PathNames(tree, id), PathNames(tree, k);
    var p := PathOf(tree, id) + "|";
    PlainLower(tree, id);
    PlainLower(tree, k);
    var text := PathOf(tree, k);
    var rest := Lower(text[|p|..]);
    assert Lower(text) == Lower(text[..|p|]) + rest;
    assert Lower(p) == Lower(PathOf(tree, id)) + ['|'];
    SplitConcat(Lower(PathOf(tree, id)), rest, '|');
    assert Lower(text) == Lower(PathOf(tree, id)) + ['|'] + rest;
    assert LowerAll(b) == LowerAll(a) + Split(rest, '|');
    assert LowerAll(b)[..|a|] == LowerAll(b[..|a|]);
  }

  lemma PlainLower(tree: Tree, k: KeywordId)
    requires k in tree && forall j | j in tree :: NameOk(tree[j].name)
    ensures Split(Lower(PathOf(tree, k)), '|') == LowerAll(PathNames(tree, k))
  {
    ChainInTree(tree, Some(k), {});
    SegmentsOk(tree, Chain(tree, Some(k), {}));
    var names := PathNames(tree, k);
    LowerJoin(names);
    forall i | 0 <= i < |names| ensures '|' !in Lower(names[i]) {
      assert NameOk(names[i]);
    }
    SplitJoin(LowerAll(names), '|');
  }

  /** **The branch by prefix is the branch by parents**, in a well-formed vocabulary, for a keyword whose path holds no
      LIKE wildcard. */
  lemma SelectedIsBranch(tree: Tree, k: KeywordId, id: KeywordId, fold: string -> string)
    requires WellFormed(tree, fold) && FoldsAsciiCase(fold) && k in tree && id in tree && NoWildcard(PathOf(tree, id))
    ensures Selected(tree, k, id) <==> Under(tree, k, id)
  {
    hide SiblingsDiffer, Acyclic;
    if Under(tree, k, id) {
      BranchIsSelected(tree, k, id);
    } else if Selected(tree, k, id) {
      var p := PathOf(tree, id) + "|";
      assert p + "%" == PathOf(tree, id) + "|%";
      LikePrefix(p, PathOf(tree, k));
      PrefixNames(tree, k, id);
      PathNamesStep(tree, id);
      var names := PathNames(tree, id);
      var x := AncestorAt(tree, k, |names|);
      var other := PathNames(tree, x);
      forall i | 0 <= i < |names| ensures fold(other[i]) == fold(names[i]) {
        assert Lower(other[i]) == LowerAll(other)[i] == LowerAll(names)[i] == Lower(names[i]);
      }
      SamePathSameKeyword(tree, x, id, fold);
      MeetsIsOnChain(tree, Some(k), id, {});
    }
  }

  // ---------------------------------------------------------------- what a prefix with wildcards selects

  /** The text has a separator before which it matches the pattern. */
  predicate MatchesBefore(pattern: string, text: string) {
    exists i :: 0 <= i < |text| && text[i] == '|' && Like(pattern, text[..i])
  }

  /** A pattern, a separator and anything match what has a separator after a match of the pattern. */
  lemma {:induction false} LikeSeparator(pattern: string, text: string)
    ensures Like(pattern + "|%", text) <==> MatchesBefore(pattern, text)
    decreases |pattern| + |text|
  {
    var whole := pattern + "|%";
    if pattern == "" {
      assert whole == "|%" && whole[1..] == "%";
      if text != "" {
        LikeAnything(text[1..]);
      }
      assert text != "" ==> text[..0] == "";
    } else {
      assert whole[1..] == pattern[1..] + "|%";
      if pattern[0] == '%' {
        LikeSeparator(pattern[1..], text);
      }
      if text != "" {
        LikeSeparator(if pattern[0] == '%' then pattern else pattern[1..], text[1..]);
      }
      MatchesStep(pattern, text);
    }
  }

  lemma MatchesStep(pattern: string, text: string)
    requires pattern != ""
    ensures MatchesBefore(pattern, text) <==>
            if pattern[0] == '%' then MatchesBefore(pattern[1..], text)
              || (text != "" && MatchesBefore(pattern, text[1..]))
            else text != "" && (pattern[0] == '_' || AsciiLower(pattern[0]) == AsciiLower(text[0]))
                 && MatchesBefore(pattern[1..], text[1..])
  {
    if text != "" {
      var after := if pattern[0] == '%' then pattern else pattern[1..];
      forall i | 0 < i < |text|
        ensures text[..i][1..] == text[1..][..i - 1] && text[..i][0] == text[0] && text[i] == text[1..][i - 1]
      {
      }
      if j :| 0 <= j < |text[1..]| && text[1..][j] == '|' && Like(after, text[1..][..j]) {
        assert text[..j + 1][1..] == text[1..][..j];
      }
    }
  }

  lemma {:induction false} LikeBars(pattern: string, text: string)
    requires Like(pattern, text)
    ensures multiset(pattern)['|'] <= multiset(text)['|']
    decreases |pattern| + |text|
  {
    if pattern != "" {
      assert pattern == [pattern[0]] + pattern[1..];
      if pattern[0] == '%' && Like(pattern[1..], text) {
        LikeBars(pattern[1..], text);
      } else {
        assert text == [text[0]] + text[1..];
        LikeBars(if pattern[0] == '%' then pattern else pattern[1..], text[1..]);
      }
    }
  }

  /** A joined text is cut at a separator where a list of plain names is. */
  lemma {:induction false} CutAtSeparator(names: seq<string>, i: nat) returns (n: nat)
    requires Without(names, '|') && i < |Join(names, '|')| && Join(names, '|')[i] == '|'
    ensures 0 < n < |names| && Join(names, '|')[..i] == Join(names[..n], '|')
  {
    var last := names[|names| - 1];
    assert '|' !in last;
    assert |names| > 1;
    var front := names[..|names| - 1];
    var before, whole := Join(front, '|'), Join(names, '|');
    assert whole == before + ['|'] + last;
    assert i <= |before| by {
      assert forall j | |before| < j < |whole| :: whole[j] == last[j - |before| - 1];
    }
    if i < |before| {
      n := CutAtSeparator(front, i);
      assert front[..n] == names[..n];
    } else {
      n := |front|;
    }
  }

  /** A path of a keyword outside a branch that the pattern of the branch matches, where something hangs from it. */
  predicate Lookalike(tree: Tree, x: KeywordId, child: KeywordId, id: KeywordId) {
    && x in tree && child in tree && tree[child].parent == Some(x) && !Under(tree, x, id)
    && Like(PathOf(tree, id), PathOf(tree, x))
  }

  lemma ChildPath(tree: Tree, child: KeywordId)
    requires Acyclic(tree) && NoMissingParent(tree) && child in tree && tree[child].parent.Some?
    ensures PathOf(tree, child) == PathOf(tree, tree[child].parent.value) + "|" + tree[child].name
  {
    var x := tree[child].parent.value;
    PathNamesStep(tree, child);
    PathNamesStep(tree, x);
    assert PathNames(tree, child)[..|PathNames(tree, child)| - 1] == PathNames(tree, x);
    assert PathOf(tree, x) + ['|'] + tree[child].name == PathOf(tree, x) + "|" + tree[child].name;
  }

  /** What hangs from a lookalike is selected, and is not of the branch. */
  lemma LookalikeSelects(tree: Tree, x: KeywordId, child: KeywordId, id: KeywordId)
    requires Acyclic(tree) && NoMissingParent(tree) && id in tree && Lookalike(tree, x, child, id)
    ensures Selected(tree, child, id) && !Under(tree, child, id)
  {
    ChildPath(tree, child);
    var above, path := PathOf(tree, x), PathOf(tree, child);
    assert path[|above|] == '|' && path[..|above|] == above;
    LikeSeparator(PathOf(tree, id), path);
    MeetsIsOnChain(tree, Some(child), id, {});
    MeetsIsOnChain(tree, Some(x), id, {});
    ChainStep(tree, child);
    assert path == above + "|" + tree[child].name;
    if child == id {
      LikeBars(path, above);
    }
  }

  /** What is selected outside the branch hangs, near or far, from a lookalike. */
  lemma SelectedShowsLookalike(tree: Tree, k: KeywordId, id: KeywordId) returns (x: KeywordId, child: KeywordId)
    requires Acyclic(tree) && NoMissingParent(tree) && (forall j | j in tree :: NameOk(tree[j].name))
    requires k in tree && id in tree && Selected(tree, k, id) && !Under(tree, k, id)
    ensures Lookalike(tree, x, child, id)
  {
    var names, pattern := PathNames(tree, k), PathOf(tree, id);
    LikeSeparator(pattern, PathOf(tree, k));
    var i :| 0 <= i < |PathOf(tree, k)| && PathOf(tree, k)[i] == '|' && Like(pattern, PathOf(tree, k)[..i]);
    ChainInTree(tree, Some(k), {});
    SegmentsOk(tree, Chain(tree, Some(k), {}));
    assert Without(names, '|') by {
      forall m | 0 <= m < |names| ensures '|' !in names[m] {
        assert NameOk(names[m]);
      }
    }
    var n := CutAtSeparator(names, i);
    x, child := OneBelow(tree, k, n);
    MeetsIsOnChain(tree, Some(k), x, {});
    if Under(tree, x, id) {
      UnderTransitive(tree, k, x, id);
    }
  }

  /** The keyword some levels down a keyword's chain, and the one of the chain that hangs from it. */
  lemma {:induction false} OneBelow(tree: Tree, k: KeywordId, n: nat) returns (x: KeywordId, child: KeywordId)
    requires Acyclic(tree) && NoMissingParent(tree) && k in tree && 0 < n < |PathNames(tree, k)|
    ensures x in tree && x in Chain(tree, Some(k), {}) && PathNames(tree, x) == PathNames(tree, k)[..n]
    ensures child in tree && tree[child].parent == Some(x)
    decreases |Chain(tree, Some(k), {})|
  {
    PathNamesStep(tree, k);
    ChainStep(tree, k);
    var p := tree[k].parent.value;
    if n == |PathNames(tree, p)| {
      PathNamesStep(tree, p);
      ChainStep(tree, p);
      x, child := p, k;
      assert PathNames(tree, k)[..n] == PathNames(tree, p);
    } else {
      x, child := OneBelow(tree, p, n);
      assert PathNames(tree, k)[..n] == PathNames(tree, p)[..n];
    }
  }

  /** **The branch by prefix is the branch by parents exactly when** no keyword outside it, from which something hangs,
      has a path that the path of the branch matches as a pattern. */
  lemma SelectionIsBranchExactly(tree: Tree, id: KeywordId, fold: string -> string)
    requires WellFormed(tree, fold) && id in tree
    ensures (forall k | k in tree :: Selected(tree, k, id) <==> Under(tree, k, id))
            <==> (forall x, child :: !Lookalike(tree, x, child, id))
  {
    hide SiblingsDiffer, Acyclic, Selected, Under, PathOf;
    forall x, child | Lookalike(tree, x, child, id)
      ensures child in tree && Selected(tree, child, id) && !Under(tree, child, id)
    {
      LookalikeSelects(tree, x, child, id);
    }
    forall k | k in tree && Selected(tree, k, id) && !Under(tree, k, id)
      ensures exists x, child :: Lookalike(tree, x, child, id)
    {
      var x, child := SelectedShowsLookalike(tree, k, id);
    }
    forall k | k in tree && Under(tree, k, id) ensures Selected(tree, k, id) {
      BranchIsSelected(tree, k, id);
    }
  }

  /** A top-level keyword, and beside it another with one child. */
  function Siblings(a: KeywordEntry, b: KeywordEntry, child: KeywordEntry): Tree {
    map[a.id := a, b.id := b, child.id := child]
  }

  predicate IsSiblings(a: KeywordEntry, b: KeywordEntry, child: KeywordEntry) {
    && a.id != b.id && a.id != child.id && b.id != child.id
    && a.parent.None? && b.parent.None? && child.parent == Some(b.id)
    && NameOk(a.name) && NameOk(b.name) && NameOk(child.name)
  }

  lemma SiblingsAreForest(a: KeywordEntry, b: KeywordEntry, child: KeywordEntry, fold: string -> string)
    requires IsSiblings(a, b, child) && fold(a.name) != fold(b.name)
    ensures WellFormed(Siblings(a, b, child), fold)
  {
    assert Chain(Siblings(a, b, child), Some(b.id), {}) == [b.id];
  }

  lemma JoinTwo(x: string, y: string, sep: char)
    ensures Join([x, y], sep) == x + [sep] + y
  {
    assert [x, y][..1] == [x];
  }

  lemma SiblingPaths(a: KeywordEntry, b: KeywordEntry, child: KeywordEntry, fold: string -> string)
    requires IsSiblings(a, b, child) && WellFormed(Siblings(a, b, child), fold)
    ensures PathOf(Siblings(a, b, child), a.id) == a.name
    ensures PathOf(Siblings(a, b, child), child.id) == b.name + "|" + child.name
    ensures !Under(Siblings(a, b, child), child.id, a.id)
  {
    hide SiblingsDiffer, Acyclic;
    var tree := Siblings(a, b, child);
    PathNamesStep(tree, a.id);
    PathNamesStep(tree, b.id);
    PathNamesStep(tree, child.id);
    assert PathNames(tree, child.id) == [b.name, child.name];
    JoinTwo(b.name, child.name, '|');
    assert ['|'] == "|";
    ChainStep(tree, child.id);
    ChainStep(tree, b.id);
    MeetsIsOnChain(tree, Some(child.id), a.id, {});
  }

  /** **With a wildcard in its name a keyword's prefix selects more**: one named `_` takes in what is under any
      sibling whose name is one character. */
  lemma WildcardSelectsMore(a: KeywordEntry, b: KeywordEntry, child: KeywordEntry, fold: string -> string)
    requires IsSiblings(a, b, child) && a.name == "_" && |b.name| == 1 && fold(a.name) != fold(b.name)
    ensures WellFormed(Siblings(a, b, child), fold)
    ensures Selected(Siblings(a, b, child), child.id, a.id) && !Under(Siblings(a, b, child), child.id, a.id)
  {
    hide WellFormed, Under;
    SiblingsAreForest(a, b, child, fold);
    SiblingPaths(a, b, child, fold);
    LikeItself("|", child.name);
    assert ("_" + "|%")[1..] == "|" + "%";
    assert (b.name + "|" + child.name)[1..] == "|" + child.name;
  }
}
