// The background refresh of path snapshots as a protocol: a change of the vocabulary asks for one, one worker at a time
// sends one message a photo, the coordinator takes the messages in order, and commands come in between. The last
// vocabulary wins.
module PathRefresh {
  import opened Wrappers
  import opened Text
  import opened Vocabulary
  import opened VocabularyEdits
  import opened KeywordIndex
  import opened Journal
  import opened PhotoEdits

  /** The keywords a photo carries, with the snapshots of their paths. */
  datatype Carried = Carried(ids: seq<KeywordId>, paths: seq<string>)

  type Paths = map<KeywordId, string>

  /** The snapshots of one photo, to be refreshed from the paths as of one change. */
  datatype Update = Update(photo: PhotoId, paths: Paths)

  datatype Message = Refreshed(update: Update) | RefreshDone

  datatype Request = Request(photos: seq<PhotoId>, paths: Paths)

  /** The messages on their way, the running worker with the photos it has still to send, and the requests that wait for
      it to be done. */
  datatype State = State(
    tree: Tree, photos: map<PhotoId, Carried>,
    inbound: seq<Message>, running: bool, worker: Option<Request>, waiting: seq<Request>)

  datatype Event =
    | ChangeVocabulary(deltas: seq<KeywordDelta>, direction: Direction, affected: seq<PhotoId>, alwaysJob: bool)
    | GainKeyword(photo: PhotoId, keyword: KeywordId)
    | LoseKeyword(photo: PhotoId, at: nat)
    | PutBack(photo: PhotoId, recorded: KeywordSet)
    | PhotoArrives(photo: PhotoId)
    | PhotoLeaves(photo: PhotoId)
    | WorkerSends
    | WorkerEnds
    | WorkerIsCancelled
    | RequestIsCancelled(at: nat)
    | CoordinatorTakes

  function AllPaths(tree: Tree): Paths { map k | k in tree :: PathOf(tree, k) }

  /** The photos a change of the vocabulary touches, each once. */
  ghost predicate Touched(photos: map<PhotoId, Carried>, tree: Tree, deltas: seq<KeywordDelta>, direction: Direction,
                    affected: seq<PhotoId>)
  {
    forall p :: p in affected <==> p in photos && exists k ::
        k in photos[p].ids && Rewritten(tree, deltas, direction, k)
  }

  predicate Dangles(photos: map<PhotoId, Carried>, tree: Tree) {
    exists p :: p in photos && exists k :: k in photos[p].ids && k !in tree
  }

  /** When an event can happen. A change of the vocabulary is one the commands make: it leaves no missing parent and
      takes out no keyword that is carried. Undo and Redo of a photo's keywords put back what the change recorded, the
      path snapshots of that moment included. */
  ghost predicate CanHappen(s: State, e: Event) {
    match e
    case ChangeVocabulary(deltas, direction, affected, _) =>
      var tree := Overlay(s.tree, deltas, direction);
      Proper(deltas) && NoMissingParent(tree) && !Dangles(s.photos, tree)
      && Touched(s.photos, tree, deltas, direction, affected)
    case GainKeyword(photo, keyword) => photo in s.photos && keyword in s.tree && keyword !in s.photos[photo].ids
    case LoseKeyword(photo, at) => photo in s.photos && at < |s.photos[photo].ids|
    case PutBack(photo, recorded) =>
      photo in s.photos && |recorded.ids| == |recorded.paths| && forall k | k in recorded.ids :: k in s.tree
    case PhotoArrives(photo) => photo !in s.photos
    case PhotoLeaves(photo) => true
    case WorkerSends => s.worker.Some? && s.worker.value.photos != []
    case WorkerEnds => s.worker.Some? && s.worker.value.photos == []
    case WorkerIsCancelled => s.worker.Some?
    case RequestIsCancelled(at) => at < |s.waiting|
    case CoordinatorTakes => s.inbound != []
  }

  function Queued(s: State, request: Request): State {
    if s.running then s.(waiting := s.waiting + [request])
    else s.(running := true, worker := Some(request))
  }

  function Refresh(photos: map<PhotoId, Carried>, update: Update): map<PhotoId, Carried> {
    if update.photo in photos then
      var c := photos[update.photo];
      photos[update.photo := Carried(c.ids, RefreshedPaths(c.ids, c.paths, update.paths))]
    else photos
  }

  function Next(s: State, e: Event): State
    requires CanHappen(s, e)
  {
    match e
    case ChangeVocabulary(deltas, direction, affected, alwaysJob) =>
      var changed := s.(tree := Overlay(s.tree, deltas, direction));
      if affected == [] && !alwaysJob then changed else Queued(changed, Request(affected, AllPaths(changed.tree)))
    case GainKeyword(photo, keyword) =>
      var c := s.photos[photo];
      s.(photos := s.photos[photo := Carried(c.ids + [keyword], c.paths + [PathOf(s.tree, keyword)])])
    case LoseKeyword(photo, at) =>
      var left := RemoveAt(KeywordSet(s.photos[photo].ids, s.photos[photo].paths), at);
      s.(photos := s.photos[photo := Carried(left.ids, left.paths)])
    case PutBack(photo, recorded) => s.(photos := s.photos[photo := Carried(recorded.ids, recorded.paths)])
    case PhotoArrives(photo) => s.(photos := s.photos[photo := Carried([], [])])
    case PhotoLeaves(photo) => s.(photos := s.photos - {photo})
    case WorkerSends =>
      var r := s.worker.value;
      s.(inbound := s.inbound + [Refreshed(Update(r.photos[0], r.paths))], worker := Some(r.(photos := r.photos[1..])))
    case WorkerEnds => s.(inbound := s.inbound + [RefreshDone], worker := None)
    case WorkerIsCancelled => s.(inbound := s.inbound + [RefreshDone], worker := None)
    case RequestIsCancelled(at) => s.(waiting := s.waiting[..at] + s.waiting[at + 1..])
    case CoordinatorTakes =>
      var rest := s.(inbound := s.inbound[1..]);
      match s.inbound[0]
      case Refreshed(update) => rest.(photos := Refresh(s.photos, update))
      case RefreshDone =>
        if s.waiting == [] then rest.(running := false)
        else rest.(running := true, worker := Some(s.waiting[0]), waiting := s.waiting[1..])
  }

  // ---------------------------------------------------------------- what is still to come

  function UpdatesOf(request: Request): (updates: seq<Update>)
    ensures |updates| == |request.photos|
    ensures forall i | 0 <= i < |updates| :: updates[i] == Update(request.photos[i], request.paths)
  {
    seq(|request.photos|, i requires 0 <= i < |request.photos| => Update(request.photos[i], request.paths))
  }

  function Sent(inbound: seq<Message>): seq<Update> {
    if inbound == [] then []
    else (match inbound[0] case Refreshed(update) => [update] case RefreshDone => []) + Sent(inbound[1..])
  }

  function Asked(waiting: seq<Request>): seq<Update> {
    if waiting == [] then [] else UpdatesOf(waiting[0]) + Asked(waiting[1..])
  }

  /** Every update that will be made if nothing is cancelled, in the order it will be. */
  function Coming(s: State): seq<Update> {
    Sent(s.inbound) + (if s.worker.Some? then UpdatesOf(s.worker.value) else []) + Asked(s.waiting)
  }

  /** The snapshot a keyword of a photo ends with: the last update that names the photo and has the keyword wins. */
  function Ends(keyword: KeywordId, path: string, photo: PhotoId, coming: seq<Update>): string {
    if coming == [] then path
    else
      var last := coming[|coming| - 1];
      if last.photo == photo && keyword in last.paths then last.paths[keyword]
      else Ends(keyword, path, photo, coming[..|coming| - 1])
  }

  /** The path the updates to come give a keyword of a photo: that of the last one that names the photo and has the
      keyword, if there is one. */
  function Given(keyword: KeywordId, photo: PhotoId, coming: seq<Update>): Option<string> {
    if coming == [] then None
    else
      var last := coming[|coming| - 1];
      if last.photo == photo && keyword in last.paths then Some(last.paths[keyword])
      else Given(keyword, photo, coming[..|coming| - 1])
  }

  lemma {:induction false} EndsAsGiven(keyword: KeywordId, path: string, photo: PhotoId, coming: seq<Update>)
    ensures Ends(keyword, path, photo, coming) ==
            match Given(keyword, photo, coming) case Some(given) => given case None => path
  {
    if coming != [] {
      EndsAsGiven(keyword, path, photo, coming[..|coming| - 1]);
    }
  }

  /** A snapshot put on a photo will be the keyword's path: the updates to come give it, or it is and they give none. */
  predicate ComesRight(keyword: KeywordId, path: string, photo: PhotoId, tree: Tree, coming: seq<Update>)
    requires keyword in tree
  {
    match Given(keyword, photo, coming)
    case Some(given) => given == PathOf(tree, keyword)
    case None => path == PathOf(tree, keyword)
  }

  /** One worker at a time, and nobody waits for one that is not there: a worker runs, or its last message is on its
      way. */
  predicate OneAtATime(s: State) {
    && DonesIn(s.inbound) + (if s.worker.Some? then 1 else 0) == (if s.running then 1 else 0)
    && (!s.running ==> s.waiting == [])
  }

  function DonesIn(inbound: seq<Message>): nat {
    if inbound == [] then 0 else (if inbound[0].RefreshDone? then 1 else 0) + DonesIn(inbound[1..])
  }

  /** Every snapshot will be the keyword's path in the vocabulary as it is now. */
  predicate WillBeCurrent(photo: PhotoId, c: Carried, tree: Tree, coming: seq<Update>) {
    && |c.paths| == |c.ids|
    && forall i | 0 <= i < |c.ids| ::
        c.ids[i] in tree && Ends(c.ids[i], c.paths[i], photo, coming) == PathOf(tree, c.ids[i])
  }

  predicate Promised(s: State) {
    OneAtATime(s) && forall p | p in s.photos :: WillBeCurrent(p, s.photos[p], s.tree, Coming(s))
  }

  // ---------------------------------------------------------------- facts about what is to come

  lemma {:induction false} SentMore(inbound: seq<Message>, m: Message)
    ensures Sent(inbound + [m]) == Sent(inbound) + match m case Refreshed(update) => [update] case RefreshDone => []
    ensures DonesIn(inbound + [m]) == DonesIn(inbound) + if m.RefreshDone? then 1 else 0
  {
    if inbound == [] {
      assert [] + [m] == [m];
    } else {
      var rest, last := inbound[1..], Sent([m]);
      assert (inbound + [m])[1..] == rest + [m] && [m][1..] == [];
      SentMore(rest, m);
      var first := match inbound[0] case Refreshed(update) => [update] case RefreshDone => [];
      assert first + (Sent(rest) + last) == (first + Sent(rest)) + last;
    }
  }

  lemma {:induction false} AskedMore(waiting: seq<Request>, request: Request)
    ensures Asked(waiting + [request]) == Asked(waiting) + UpdatesOf(request)
  {
    if waiting == [] {
      assert [] + [request] == [request];
    } else {
      assert (waiting + [request])[1..] == waiting[1..] + [request];
      AskedMore(waiting[1..], request);
    }
  }

  /** The first update made now gives what it would have given in its turn. */
  lemma {:induction false} EndsFirst(keyword: KeywordId, path: string, photo: PhotoId, first: Update, rest: seq<Update>)
    ensures Ends(keyword, path, photo, [first] + rest) ==
            Ends(keyword, if first.photo == photo && keyword in first.paths then first.paths[keyword] else path,
                 photo, rest)
  {
    if rest != [] {
      var front := rest[..|rest| - 1];
      assert ([first] + rest)[..|rest|] == [first] + front;
      EndsFirst(keyword, path, photo, first, front);
    } else {
      assert [first] + rest == [first];
    }
  }

  lemma {:induction false} EndsWith(keyword: KeywordId, path: string, photo: PhotoId, coming: seq<Update>,
                                    request: Request, n: nat)
    requires n <= |request.photos|
    ensures Ends(keyword, path, photo, coming + UpdatesOf(request)[..n]) ==
            if photo in request.photos[..n] && keyword in request.paths then request.paths[keyword]
            else Ends(keyword, path, photo, coming)
  {
    var all := coming + UpdatesOf(request)[..n];
    if n == 0 {
      assert all == coming;
    } else {
      assert all[..|all| - 1] == coming + UpdatesOf(request)[..n - 1];
      assert request.photos[..n] == request.photos[..n - 1] + [request.photos[n - 1]];
      EndsWith(keyword, path, photo, coming, request, n - 1);
    }
  }

  // ---------------------------------------------------------------- every event keeps the promise

  /** The worker, its end and the coordinator's own bookkeeping leave what is to come as it is. */
  lemma SendingMovesNothing(s: State)
    requires CanHappen(s, WorkerSends)
    ensures Coming(Next(s, WorkerSends)) == Coming(s)
    ensures OneAtATime(s) ==> OneAtATime(Next(s, WorkerSends))
  {
    hide Asked, Sent, DonesIn;
    var r := s.worker.value;
    var u := Update(r.photos[0], r.paths);
    SentMore(s.inbound, Refreshed(u));
    FirstOf(r);
    Regroup(Sent(s.inbound), u, UpdatesOf(r.(photos := r.photos[1..])), Asked(s.waiting));
  }

  lemma FirstOf(request: Request)
    requires request.photos != []
    ensures UpdatesOf(request) == [Update(request.photos[0], request.paths)]
            + UpdatesOf(request.(photos := request.photos[1..]))
  {
  }

  lemma Regroup(a: seq<Update>, u: Update, b: seq<Update>, c: seq<Update>)
    ensures a + ([u] + b) + c == (a + [u]) + b + c
  {
  }

  lemma EndingMovesNothing(s: State)
    requires CanHappen(s, WorkerEnds)
    ensures Coming(Next(s, WorkerEnds)) == Coming(s)
    ensures OneAtATime(s) ==> OneAtATime(Next(s, WorkerEnds))
  {
    SentMore(s.inbound, RefreshDone);
    assert UpdatesOf(s.worker.value) == [];
  }

  lemma TakingTakesTheFirst(s: State)
    requires CanHappen(s, CoordinatorTakes) && OneAtATime(s)
    ensures OneAtATime(Next(s, CoordinatorTakes))
    ensures match s.inbound[0]
            case Refreshed(update) => Coming(s) == [update] + Coming(Next(s, CoordinatorTakes))
            case RefreshDone => Coming(s) == Coming(Next(s, CoordinatorTakes))
  {
    hide UpdatesOf;
    var workers := if s.worker.Some? then UpdatesOf(s.worker.value) else [];
    var asked := Asked(s.waiting);
    match s.inbound[0]
    case Refreshed(update) =>
      assert [update] + Sent(s.inbound[1..]) + workers + asked == [update] + (Sent(s.inbound[1..]) + workers + asked);
    case RefreshDone =>
      assert s.worker.None? && [] + Sent(s.inbound[1..]) == Sent(s.inbound[1..]);
      if s.waiting != [] {
        assert Sent(s.inbound[1..]) + [] + asked ==
            Sent(s.inbound[1..]) + UpdatesOf(s.waiting[0]) + Asked(s.waiting[1..]);
      }
  }

  lemma RefreshKeeps(photo: PhotoId, c: Carried, tree: Tree, update: Update, rest: seq<Update>)
    ensures WillBeCurrent(photo, c, tree, [update] + rest) <==>
            WillBeCurrent(photo,
                          if update.photo == photo then Carried(c.ids, RefreshedPaths(c.ids, c.paths, update.paths))
                          else c,
                          tree, rest)
  {
    hide PathOf, Ends;
    var after := if update.photo == photo then Carried(c.ids, RefreshedPaths(c.ids, c.paths, update.paths)) else c;
    if |c.paths| == |c.ids| {
      forall i | 0 <= i < |c.ids|
        ensures Ends(c.ids[i], c.paths[i], photo, [update] + rest) == Ends(c.ids[i], after.paths[i], photo, rest)
      {
        EndsFirst(c.ids[i], c.paths[i], photo, update, rest);
      }
    }
  }

  /** Taking a message moves the promise along, neither keeping one that was broken nor breaking one. */
  lemma TakingKeeps(s: State)
    requires OneAtATime(s) && CanHappen(s, CoordinatorTakes)
    ensures Promised(Next(s, CoordinatorTakes)) <==> Promised(s)
  {
    hide WillBeCurrent, Coming, OneAtATime, RefreshedPaths;
    TakingTakesTheFirst(s);
    var after := Next(s, CoordinatorTakes);
    if s.inbound[0].Refreshed? {
      forall p | p in s.photos
        ensures WillBeCurrent(p, s.photos[p], s.tree, Coming(s)) <==>
                  WillBeCurrent(p, after.photos[p], after.tree, Coming(after))
      {
        RefreshKeeps(p, s.photos[p], s.tree, s.inbound[0].update, Coming(after));
      }
    }
  }

  lemma QueueingComesLast(s: State, request: Request)
    requires OneAtATime(s)
    ensures OneAtATime(Queued(s, request)) && Coming(Queued(s, request)) == Coming(s) + UpdatesOf(request)
  {
    AskedMore(s.waiting, request);
    if !s.running {
      assert s.worker.None?;
    }
  }

  /** A photo a change of the vocabulary does not touch keeps the paths of its keywords. */
  lemma UntouchedPhoto(photo: PhotoId, c: Carried, before: Tree, deltas: seq<KeywordDelta>, direction: Direction,
                       coming: seq<Update>)
    requires Proper(deltas) && NoMissingParent(Overlay(before, deltas, direction))
    requires WillBeCurrent(photo, c, before, coming)
    requires forall k | k in c.ids ::
               k in Overlay(before, deltas, direction)
                 && !Rewritten(Overlay(before, deltas, direction), deltas, direction, k)
    ensures WillBeCurrent(photo, c, Overlay(before, deltas, direction), coming)
  {
    hide NoMissingParent, Rewritten, RemovalsClosed, Ends;
    NothingDangles(before, deltas, direction);
    forall i | 0 <= i < |c.ids|
      ensures PathOf(Overlay(before, deltas, direction), c.ids[i]) == PathOf(before, c.ids[i])
    {
      UntouchedRow(before, deltas, direction, c.ids[i]);
    }
  }

  /** A photo the last request names will have the paths of that request. */
  lemma TouchedPhoto(photo: PhotoId, c: Carried, tree: Tree, coming: seq<Update>, photos: seq<PhotoId>)
    requires photo in photos && |c.paths| == |c.ids| && forall k | k in c.ids :: k in tree
    ensures WillBeCurrent(photo, c, tree, coming + UpdatesOf(Request(photos, AllPaths(tree))))
  {
    var request := Request(photos, AllPaths(tree));
    assert request.photos[..|photos|] == photos && UpdatesOf(request)[..|photos|] == UpdatesOf(request);
    forall i | 0 <= i < |c.ids|
      ensures c.ids[i] in tree && Ends(c.ids[i], c.paths[i], photo, coming + UpdatesOf(request)) ==
                PathOf(tree, c.ids[i])
    {
      EndsWith(c.ids[i], c.paths[i], photo, coming, request, |photos|);
    }
  }

  lemma UnnamedPhoto(photo: PhotoId, c: Carried, tree: Tree, coming: seq<Update>, request: Request)
    requires photo !in request.photos && WillBeCurrent(photo, c, tree, coming)
    ensures WillBeCurrent(photo, c, tree, coming + UpdatesOf(request))
  {
    assert request.photos[..|request.photos|] == request.photos;
    assert UpdatesOf(request)[..|request.photos|] == UpdatesOf(request);
    forall i | 0 <= i < |c.ids|
      ensures Ends(c.ids[i], c.paths[i], photo, coming + UpdatesOf(request)) ==
                Ends(c.ids[i], c.paths[i], photo, coming)
    {
      EndsWith(c.ids[i], c.paths[i], photo, coming, request, |request.photos|);
    }
  }

  lemma SameComing(s: State, t: State)
    requires t.inbound == s.inbound && t.worker == s.worker && t.waiting == s.waiting
    ensures Coming(t) == Coming(s)
  {
  }

  lemma ChangingKeeps(s: State, e: Event)
    requires Promised(s) && e.ChangeVocabulary? && CanHappen(s, e)
    ensures Promised(Next(s, e))
  {
    hide NoMissingParent, Rewritten, AllPaths, Coming;
    var tree := Overlay(s.tree, e.deltas, e.direction);
    var changed := s.(tree := tree);
    var request := Request(e.affected, AllPaths(tree));
    SameComing(s, changed);
    QueueingComesLast(changed, request);
    forall p | p in s.photos
      ensures WillBeCurrent(p, s.photos[p], tree, Coming(s) + UpdatesOf(request))
      ensures p !in e.affected ==> WillBeCurrent(p, s.photos[p], tree, Coming(s))
    {
      assert forall k | k in s.photos[p].ids :: k in tree;
      if p in e.affected {
        TouchedPhoto(p, s.photos[p], tree, Coming(s), e.affected);
      } else {
        UntouchedPhoto(p, s.photos[p], s.tree, e.deltas, e.direction, Coming(s));
        UnnamedPhoto(p, s.photos[p], tree, Coming(s), request);
      }
    }
  }

  lemma PromisedPut(s: State, photo: PhotoId, c: Carried)
    requires Promised(s) && photo in s.photos
    ensures Promised(s.(photos := s.photos[photo := c])) <==> WillBeCurrent(photo, c, s.tree, Coming(s))
  {
    hide WillBeCurrent, Coming, OneAtATime;
    var after := s.(photos := s.photos[photo := c]);
    SameComing(s, after);
    SameProtocol(s, after);
    assert after.photos[photo] == c;
  }

  /** **Gaining a keyword keeps the promise exactly when no update to come would give it another path.** */
  lemma GainingKeepsExactly(s: State, e: Event)
    requires Promised(s) && e.GainKeyword? && CanHappen(s, e)
    ensures Promised(Next(s, e)) <==> ComesRight(e.keyword, PathOf(s.tree, e.keyword), e.photo, s.tree, Coming(s))
  {
    hide Ends, PathOf, Coming, OneAtATime;
    var after := Next(s, e);
    var c, more := s.photos[e.photo], after.photos[e.photo];
    PromisedPut(s, e.photo, more);
    assert WillBeCurrent(e.photo, c, s.tree, Coming(s));
    assert more.ids[|c.ids|] == e.keyword && more.paths[|c.ids|] == PathOf(s.tree, e.keyword);
    assert forall i | 0 <= i < |c.ids| :: more.ids[i] == c.ids[i] && more.paths[i] == c.paths[i];
    EndsAsGiven(e.keyword, PathOf(s.tree, e.keyword), e.photo, Coming(s));
  }

  /** **Putting recorded keywords back keeps the promise exactly when** every recorded snapshot is current, or the last
      update to come that names the photo gives the current path. */
  lemma PuttingBackKeepsExactly(s: State, e: Event)
    requires Promised(s) && e.PutBack? && CanHappen(s, e)
    ensures Promised(Next(s, e)) <==>
            forall i | 0 <= i < |e.recorded.ids| ::
              ComesRight(e.recorded.ids[i], e.recorded.paths[i], e.photo, s.tree, Coming(s))
  {
    hide Ends, PathOf, Coming, OneAtATime;
    PromisedPut(s, e.photo, Carried(e.recorded.ids, e.recorded.paths));
    forall i | 0 <= i < |e.recorded.ids|
      ensures ComesRight(e.recorded.ids[i], e.recorded.paths[i], e.photo, s.tree, Coming(s)) <==>
              Ends(e.recorded.ids[i], e.recorded.paths[i], e.photo, Coming(s)) == PathOf(s.tree, e.recorded.ids[i])
    {
      EndsAsGiven(e.recorded.ids[i], e.recorded.paths[i], e.photo, Coming(s));
    }
  }

  lemma SameProtocol(s: State, t: State)
    requires t.inbound == s.inbound && t.worker == s.worker && t.waiting == s.waiting && t.running == s.running
    ensures OneAtATime(t) == OneAtATime(s)
  {
  }

  /** The events the promise is about: nothing is cancelled, and what a photo gains or gets back comes right. */
  ghost predicate InTheClear(s: State, e: Event) {
    && CanHappen(s, e) && !e.WorkerIsCancelled? && !e.RequestIsCancelled?
    && (e.GainKeyword? ==> ComesRight(e.keyword, PathOf(s.tree, e.keyword), e.photo, s.tree, Coming(s)))
    && (e.PutBack? ==> forall i | 0 <= i < |e.recorded.ids| ::
                         ComesRight(e.recorded.ids[i], e.recorded.paths[i], e.photo, s.tree, Coming(s)))
  }

  lemma EveryEventKeeps(s: State, e: Event)
    requires Promised(s) && InTheClear(s, e)
    ensures Promised(Next(s, e))
  {
    match e
    case ChangeVocabulary(_, _, _, _) => ChangingKeeps(s, e);
    case GainKeyword(_, _) => GainingKeepsExactly(s, e);
    case PutBack(_, _) => PuttingBackKeepsExactly(s, e);
    case WorkerSends => SendingKeeps(s);
    case WorkerEnds => EndingKeeps(s);
    case CoordinatorTakes => TakingKeeps(s);
    case _ => OthersKeep(s, e);
  }

  lemma OthersKeep(s: State, e: Event)
    requires Promised(s) && CanHappen(s, e) && (e.LoseKeyword? || e.PhotoArrives? || e.PhotoLeaves?)
    ensures Promised(Next(s, e))
  {
    hide Ends, PathOf, Coming, OneAtATime;
    if e.LoseKeyword? {
      LosingKeeps(s, e);
    } else {
      SameComing(s, Next(s, e));
      SameProtocol(s, Next(s, e));
    }
  }

  lemma LosingKeeps(s: State, e: Event)
    requires Promised(s) && CanHappen(s, e) && e.LoseKeyword?
    ensures Promised(Next(s, e))
  {
    hide Ends, PathOf, Coming, OneAtATime, InTheClear;
    var c, left := s.photos[e.photo], Next(s, e).photos[e.photo];
    PromisedPut(s, e.photo, left);
    assert WillBeCurrent(e.photo, c, s.tree, Coming(s));
    forall i | 0 <= i < |left.ids|
      ensures left.ids[i] in s.tree && Ends(left.ids[i], left.paths[i], e.photo, Coming(s)) ==
                PathOf(s.tree, left.ids[i])
    {
      var j := if i < e.at then i else i + 1;
      assert left.ids[i] == c.ids[j] && left.paths[i] == c.paths[j];
    }
  }

  lemma SendingKeeps(s: State)
    requires OneAtATime(s) && CanHappen(s, WorkerSends)
    ensures Promised(Next(s, WorkerSends)) <==> Promised(s)
  {
    hide WillBeCurrent, Coming, OneAtATime;
    SendingMovesNothing(s);
  }

  lemma EndingKeeps(s: State)
    requires OneAtATime(s) && CanHappen(s, WorkerEnds)
    ensures Promised(Next(s, WorkerEnds)) <==> Promised(s)
  {
    hide WillBeCurrent, Coming, OneAtATime;
    EndingMovesNothing(s);
  }

  // ---------------------------------------------------------------- runs

  ghost predicate Run(states: seq<State>, events: seq<Event>) {
    && |states| == |events| + 1
    && forall n | 0 <= n < |events| :: InTheClear(states[n], events[n]) && states[n + 1] == Next(states[n], events[n])
  }

  /** Nothing sent, nobody running, nobody waiting. */
  predicate Quiet(s: State) { s.inbound == [] && s.worker.None? && s.waiting == [] }

  predicate AllCurrent(s: State) {
    forall p | p in s.photos ::
      && |s.photos[p].paths| == |s.photos[p].ids|
      && forall i | 0 <= i < |s.photos[p].ids| ::
           s.photos[p].ids[i] in s.tree && s.photos[p].paths[i] == PathOf(s.tree, s.photos[p].ids[i])
  }

  lemma {:induction false} RunKeeps(states: seq<State>, events: seq<Event>, n: nat)
    requires Run(states, events) && Promised(states[0]) && n <= |events|
    ensures Promised(states[n])
  {
    hide Promised, InTheClear;
    if n > 0 {
      RunKeeps(states, events, n - 1);
      EveryEventKeeps(states[n - 1], events[n - 1]);
    }
  }

  /** **The last vocabulary wins**: whatever renames, moves, deletions and undos of them happen while refreshes run,
      once nothing is left to do every snapshot is the keyword's path in the vocabulary as it is, when whatever a photo
      gained or got back was to come right. */
  lemma LastVocabularyWins(states: seq<State>, events: seq<Event>)
    requires Run(states, events) && AllCurrent(states[0]) && Quiet(states[0]) && !states[0].running
    requires Quiet(states[|events|])
    ensures AllCurrent(states[|events|])
  {
    QuietIsCurrent(states[0]);
    RunKeeps(states, events, |events|);
    QuietIsCurrent(states[|events|]);
  }

  /** When all is quiet, the promise is that everything is current. */
  lemma QuietIsCurrent(s: State)
    requires Quiet(s) && OneAtATime(s)
    ensures Promised(s) <==> AllCurrent(s)
  {
    hide PathOf;
    assert Coming(s) == [];
    forall p | p in s.photos
      ensures WillBeCurrent(p, s.photos[p], s.tree, []) <==>
              && |s.photos[p].paths| == |s.photos[p].ids|
              && forall i | 0 <= i < |s.photos[p].ids| ::
                   s.photos[p].ids[i] in s.tree && s.photos[p].paths[i] == PathOf(s.tree, s.photos[p].ids[i])
    {
    }
  }

  // ---------------------------------------------------------------- everything asked for gets done

  function WorkIn(waiting: seq<Request>): nat {
    if waiting == [] then 0 else 2 * |waiting[0].photos| + 3 + WorkIn(waiting[1..])
  }

  /** What is left to do when no command comes. */
  function Work(s: State): nat {
    |s.inbound| + (if s.worker.Some? then 2 * |s.worker.value.photos| + 2 else 0) + WorkIn(s.waiting)
  }

  /** What the worker or the coordinator does next. */
  function Internal(s: State): Event {
    if s.inbound != [] then CoordinatorTakes
    else if s.worker.Some? && s.worker.value.photos != [] then WorkerSends
    else WorkerEnds
  }

  /** **Everything asked for gets done**: until all is quiet something can happen, and each thing that does leaves less
      to do. */
  lemma SomethingHappens(s: State)
    requires OneAtATime(s) && !Quiet(s)
    ensures CanHappen(s, Internal(s)) && Work(Next(s, Internal(s))) < Work(s)
    ensures OneAtATime(Next(s, Internal(s)))
  {
    match Internal(s)
    case CoordinatorTakes => TakingTakesTheFirst(s);
    case WorkerSends => SendingMovesNothing(s);
    case WorkerEnds => EndingMovesNothing(s);
  }

  /** The state when everything asked for is done and no command comes. */
  ghost function Drained(s: State): State
    requires OneAtATime(s)
    decreases Work(s)
  {
    if Quiet(s) then s
    else
      SomethingHappens(s);
      Drained(Next(s, Internal(s)))
  }

  /** **The promise is exact about the end**: left alone, everything becomes quiet with all snapshots current if and
      only if it holds. */
  lemma {:induction false} EndsCurrentExactly(s: State)
    requires OneAtATime(s)
    ensures Quiet(Drained(s)) && (AllCurrent(Drained(s)) <==> Promised(s))
    decreases Work(s)
  {
    hide Promised, AllCurrent, OneAtATime, Next, CanHappen;
    if Quiet(s) {
      QuietIsCurrent(s);
    } else {
      SomethingHappens(s);
      EndsCurrentExactly(Next(s, Internal(s)));
      match Internal(s)
      case CoordinatorTakes => TakingKeeps(s);
      case WorkerSends => SendingKeeps(s);
      case WorkerEnds => EndingKeeps(s);
    }
  }

  /** **What a photo gains or gets back ends current exactly when it comes right.** */
  lemma GainEndsCurrentExactly(s: State, e: Event)
    requires Promised(s) && (e.GainKeyword? || e.PutBack?) && CanHappen(s, e)
    ensures OneAtATime(Next(s, e)) && (AllCurrent(Drained(Next(s, e))) <==> InTheClear(s, e))
  {
    hide Ends, PathOf, Coming, OneAtATime, AllCurrent, ComesRight, WillBeCurrent, Drained;
    SameProtocol(s, Next(s, e));
    EndsCurrentExactly(Next(s, e));
    if e.GainKeyword? {
      GainingKeepsExactly(s, e);
    } else {
      PuttingBackKeepsExactly(s, e);
    }
  }

  // ---------------------------------------------------------------- why a gain has to wait

  /** A vocabulary of one keyword, and its renaming. */
  function Only(name: string): (tree: Tree)
    ensures 1 in tree
  {
    map[1 := KeywordEntry(1, name, None, [], true)]
  }

  function Rename(name: string, newName: string): seq<KeywordDelta> {
    [KeywordDelta(1, Some(KeywordEntry(1, name, None, [], true)), Some(KeywordEntry(1, newName, None, [], true)))]
  }

  lemma RenamedOnly(name: string, newName: string)
    ensures Proper(Rename(name, newName)) && Overlay(Only(name), Rename(name, newName), Redo) == Only(newName)
    ensures Rewritten(Only(newName), Rename(name, newName), Redo, 1)
    ensures PathOf(Only(newName), 1) == newName
  {
    var deltas := Rename(name, newName);
    assert deltas[..0] == [] && Overlay(Only(name), [], Redo) == Only(name);
    assert Under(Only(newName), 1, 1);
    assert Target(deltas[0], Redo).Some? && deltas[0].id == 1;
    OnePath(Only(newName), 1);
  }

  /** A photo loses a keyword while the refresh of its renaming has still to be sent, and takes it back after a second
      renaming, which did not touch it. */
  function TakenBackEarly(): seq<Event> {
    [ChangeVocabulary(Rename("a", "b"), Redo, [7], true), LoseKeyword(7, 0),
     ChangeVocabulary(Rename("b", "c"), Redo, [], true), GainKeyword(7, 1),
     WorkerSends, WorkerEnds, CoordinatorTakes, CoordinatorTakes, WorkerEnds, CoordinatorTakes]
  }

  function StatesOf(): seq<State> {
    var early, mid := Update(7, map[1 := "b"]), Request([], map[1 := "c"]);
    var has, none := map[7 := Carried([1], ["a"])], map[7 := Carried([], [])];
    var again, stale := map[7 := Carried([1], ["c"])], map[7 := Carried([1], ["b"])];
    var first := Request([7], map[1 := "b"]);
    [State(Only("a"), has, [], false, None, []),
     State(Only("b"), has, [], true, Some(first), []),
     State(Only("b"), none, [], true, Some(first), []),
     State(Only("c"), none, [], true, Some(first), [mid]),
     State(Only("c"), again, [], true, Some(first), [mid]),
     State(Only("c"), again, [Refreshed(early)], true, Some(first.(photos := [])), [mid]),
     State(Only("c"), again, [Refreshed(early), RefreshDone], true, None, [mid]),
     State(Only("c"), stale, [RefreshDone], true, None, [mid]),
     State(Only("c"), stale, [], true, Some(mid), []),
     State(Only("c"), stale, [RefreshDone], true, None, []),
     State(Only("c"), stale, [], false, None, [])]
  }

  ghost predicate Goes(s: State, e: Event, t: State) { CanHappen(s, e) && Next(s, e) == t }

  lemma LoseGoes(s: State, path: string)
    requires s.photos == map[7 := Carried([1], [path])]
    ensures Goes(s, LoseKeyword(7, 0), s.(photos := map[7 := Carried([], [])]))
  {
    assert [1][..0] + [1][1..] == [] && [path][..0] + [path][1..] == [];
    assert s.photos[7 := Carried([], [])] == map[7 := Carried([], [])];
  }

  lemma GainGoes(s: State, path: string)
    requires s.photos == map[7 := Carried([], [])] && 1 in s.tree && PathOf(s.tree, 1) == path
    ensures Goes(s, GainKeyword(7, 1), s.(photos := map[7 := Carried([1], [path])]))
  {
    hide PathOf;
    assert s.photos[7].ids + [1] == [1] && s.photos[7].paths + [path] == [path];
    assert s.photos[7 := Carried([1], [path])] == map[7 := Carried([1], [path])];
  }

  lemma SendGoes(s: State, paths: Paths)
    requires s.worker == Some(Request([7], paths)) && s.inbound == []
    ensures Goes(s, WorkerSends, s.(inbound := [Refreshed(Update(7, paths))], worker := Some(Request([], paths))))
  {
    assert s.inbound + [Refreshed(Update(7, paths))] == [Refreshed(Update(7, paths))] && [7][1..] == [];
  }

  lemma EndGoes(s: State, r: Request)
    requires s.worker == Some(r) && r.photos == []
    ensures Goes(s, WorkerEnds, s.(inbound := s.inbound + [RefreshDone], worker := None))
  {
  }

  lemma TakeGoes(s: State, path: string, refreshed: string, rest: seq<Message>)
    requires s.photos == map[7 := Carried([1], [path])]
             && s.inbound == [Refreshed(Update(7, map[1 := refreshed]))] + rest
    ensures Goes(s, CoordinatorTakes, s.(photos := map[7 := Carried([1], [refreshed])], inbound := rest))
  {
    assert s.inbound[1..] == rest;
    assert RefreshedPaths([1], [path], map[1 := refreshed]) == [refreshed];
    assert s.photos[7 := Carried([1], [refreshed])] == map[7 := Carried([1], [refreshed])];
  }

  lemma DoneGoes(s: State)
    requires s.inbound == [RefreshDone]
    ensures s.waiting == [] ==> Goes(s, CoordinatorTakes, s.(inbound := [], running := false))
    ensures forall r | s.waiting == [r] ::
              Goes(s, CoordinatorTakes, s.(inbound := [], running := true, worker := Some(r), waiting := []))
  {
    assert s.inbound[1..] == [] && (|s.waiting| == 1 ==> s.waiting[1..] == []);
  }

  lemma HappensAt(n: nat)
    requires n < |TakenBackEarly()|
    ensures Goes(StatesOf()[n], TakenBackEarly()[n], StatesOf()[n + 1])
  {
    hide Goes, Overlay, Rewritten, Under, Proper, PathOf, Only, Rename;
    var s := StatesOf()[n];
    if n == 0 {
      RenamingGoes("a", "b", s, [7]);
    } else if n == 1 {
      LoseGoes(s, "a");
    } else if n == 2 {
      RenamingGoes("b", "c", s, []);
      assert s.waiting + [Request([], map[1 := "c"])] == StatesOf()[3].waiting;
    } else if n == 3 {
      RenamedOnly("b", "c");
      GainGoes(s, "c");
    } else if n == 4 {
      SendGoes(s, map[1 := "b"]);
    } else if n == 5 {
      EndGoes(s, s.worker.value);
      assert s.inbound + [RefreshDone] == StatesOf()[6].inbound;
    } else if n == 6 {
      TakeGoes(s, "c", "b", [RefreshDone]);
    } else if n == 8 {
      EndGoes(s, s.worker.value);
      assert s.inbound + [RefreshDone] == StatesOf()[9].inbound;
    } else {
      DoneGoes(s);
    }
  }

  lemma RenamingGoes(name: string, newName: string, s: State, affected: seq<PhotoId>)
    requires s.tree == Only(name) && s.photos.Keys == {7} && (forall k | k in s.photos[7].ids :: k == 1)
    requires affected == if s.photos[7].ids == [] then [] else [7]
    ensures var e := ChangeVocabulary(Rename(name, newName), Redo, affected, true);
            Goes(s, e, Queued(s.(tree := Only(newName)), Request(affected, map[1 := newName])))
  {
    hide Overlay, Rewritten, Under, Proper, PathOf;
    RenamedOnly(name, newName);
    assert AllPaths(Only(newName)) == map[1 := newName];
    if s.photos[7].ids != [] {
      assert s.photos[7].ids[0] in s.photos[7].ids;
    }
  }

  /** **Without that the promise fails**: a run in which every message arrives and all becomes quiet, and the photo is
      left with a name the keyword no longer has. */
  lemma ATakenBackKeywordEndsStale() returns (states: seq<State>, events: seq<Event>)
    ensures events == TakenBackEarly() && |states| == |events| + 1
    ensures AllCurrent(states[0]) && Quiet(states[0])
    ensures forall n | 0 <= n < |events| :: Goes(states[n], events[n], states[n + 1])
    ensures Quiet(states[|events|]) && !AllCurrent(states[|events|])
  {
    hide Goes;
    states, events := StatesOf(), TakenBackEarly();
    OnePath(Only("a"), 1);
    OnePath(Only("c"), 1);
    forall n | 0 <= n < |events| ensures Goes(states[n], events[n], states[n + 1]) {
      HappensAt(n);
    }
    var last := StatesOf()[10];
    assert last.photos[7].ids[0] == 1 && last.photos[7].paths[0] == "b";
  }

  // ---------------------------------------------------------------- why an undo can bring an old path back

  function Deletion(name: string): seq<KeywordDelta> {
    [KeywordDelta(1, Some(KeywordEntry(1, name, None, [], true)), None)]
  }

  /** A keyword is renamed, and deleted before the refresh of its one photo is sent; when all is quiet the deletion is
      undone: the vocabulary comes back first, then the photo's keyword with the path it had when it was deleted. */
  function DeletedAndUndone(): seq<Event> {
    [ChangeVocabulary(Rename("a", "b"), Redo, [7], true), LoseKeyword(7, 0),
     ChangeVocabulary(Deletion("b"), Redo, [], false), WorkerSends, WorkerEnds, CoordinatorTakes, CoordinatorTakes,
     ChangeVocabulary(Deletion("b"), Undo, [], false), PutBack(7, KeywordSet([1], ["a"]))]
  }

  function UndoneStates(): seq<State> {
    var has, none := map[7 := Carried([1], ["a"])], map[7 := Carried([], [])];
    var first := Request([7], map[1 := "b"]);
    var update := Refreshed(Update(7, map[1 := "b"]));
    [State(Only("a"), has, [], false, None, []),
     State(Only("b"), has, [], true, Some(first), []),
     State(Only("b"), none, [], true, Some(first), []),
     State(map[], none, [], true, Some(first), []),
     State(map[], none, [update], true, Some(first.(photos := [])), []),
     State(map[], none, [update, RefreshDone], true, None, []),
     State(map[], none, [RefreshDone], true, None, []),
     State(map[], none, [], false, None, []),
     State(Only("b"), none, [], false, None, []),
     State(Only("b"), has, [], false, None, [])]
  }

  /** Nobody carries it when it goes, so no refresh is asked for, and none when it comes back. */
  lemma DeletingGoes(name: string, s: State, direction: Direction)
    requires s.tree == (if direction == Redo then Only(name) else map[]) && s.photos == map[7 := Carried([], [])]
    ensures Goes(s, ChangeVocabulary(Deletion(name), direction, [], false),
                 s.(tree := if direction == Redo then map[] else Only(name)))
  {
    OverlayOne(s.tree, Deletion(name)[0], direction);
    assert Only(name) - {1} == map[];
  }

  lemma TakeNothing(s: State, update: Update, rest: seq<Message>)
    requires s.photos == map[7 := Carried([], [])] && s.inbound == [Refreshed(update)] + rest
    ensures Goes(s, CoordinatorTakes, s.(inbound := rest))
  {
    assert s.inbound[1..] == rest;
    assert RefreshedPaths([], [], update.paths) == [];
    assert s.photos[7 := Carried([], [])] == s.photos;
  }

  lemma PutBackGoes(s: State, name: string, path: string)
    requires s.tree == Only(name) && s.photos == map[7 := Carried([], [])]
    ensures Goes(s, PutBack(7, KeywordSet([1], [path])), s.(photos := map[7 := Carried([1], [path])]))
  {
    assert s.photos[7 := Carried([1], [path])] == map[7 := Carried([1], [path])];
  }

  lemma UndoneAt(n: nat)
    requires n < |DeletedAndUndone()|
    ensures Goes(UndoneStates()[n], DeletedAndUndone()[n], UndoneStates()[n + 1])
  {
    hide Goes, Overlay, Rewritten, Under, Proper, PathOf, Only, Rename, Deletion;
    if n < 4 {
      UndoneEarly(n);
    } else {
      UndoneLate(n);
    }
  }

  lemma UndoneEarly(n: nat)
    requires n < 4
    ensures Goes(UndoneStates()[n], DeletedAndUndone()[n], UndoneStates()[n + 1])
  {
    hide Goes, Overlay, Rewritten, Under, Proper, PathOf, Only, Rename, Deletion;
    var s := UndoneStates()[n];
    if n == 0 {
      RenamingGoes("a", "b", s, [7]);
    } else if n == 1 {
      LoseGoes(s, "a");
    } else if n == 2 {
      DeletingGoes("b", s, Redo);
    } else {
      SendGoes(s, map[1 := "b"]);
    }
  }

  lemma UndoneLate(n: nat)
    requires 4 <= n < 9
    ensures Goes(UndoneStates()[n], DeletedAndUndone()[n], UndoneStates()[n + 1])
  {
    hide Goes, Overlay, Rewritten, Under, Proper, PathOf, Only, Rename, Deletion;
    var s := UndoneStates()[n];
    if n == 4 {
      EndGoes(s, s.worker.value);
      assert s.inbound + [RefreshDone] == UndoneStates()[5].inbound;
    } else if n == 5 {
      TakeNothing(s, Update(7, map[1 := "b"]), [RefreshDone]);
    } else if n == 6 {
      DoneGoes(s);
    } else if n == 7 {
      DeletingGoes("b", s, Undo);
    } else {
      PutBackGoes(s, "b", "a");
    }
  }

  /** **An undo can bring an old path back**: a run from all current to all quiet in which the photo ends with the name
      its keyword had before a rename that nobody undid. */
  lemma AnUndoneDeletionEndsStale() returns (states: seq<State>, events: seq<Event>)
    ensures events == DeletedAndUndone() && |states| == |events| + 1
    ensures AllCurrent(states[0]) && Quiet(states[0])
    ensures forall n | 0 <= n < |events| :: Goes(states[n], events[n], states[n + 1])
    ensures Quiet(states[|events|]) && !AllCurrent(states[|events|])
  {
    hide Goes;
    states, events := UndoneStates(), DeletedAndUndone();
    OnePath(Only("a"), 1);
    OnePath(Only("b"), 1);
    forall n | 0 <= n < |events| ensures Goes(states[n], events[n], states[n + 1]) {
      UndoneAt(n);
    }
    var last := UndoneStates()[9];
    assert last.photos[7].ids[0] == 1 && last.photos[7].paths[0] == "a";
  }

  lemma OnePath(tree: Tree, k: KeywordId)
    requires k in tree && tree[k].parent.None?
    ensures PathOf(tree, k) == tree[k].name
  {
    assert Chain(tree, Some(k), {}) == [k] + Chain(tree, None, {} + {k});
    assert Segments(tree, [k]) == [tree[k].name];
  }
}
