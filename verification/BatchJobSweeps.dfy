// A whole sweep: from its start to its end nobody interferes with it takes its branch off everybody, and deletes it.
module BatchJobSweeps {
  import opened Wrappers
  import opened Vocabulary
  import opened VocabularyEdits
  import opened KeywordIndex
  import opened PhotoMetadata
  import opened Journal
  import opened PhotoEdits
  import opened BatchJobs
  import opened BatchJobKeywords

  // ---------------------------------------------------------------- a job from its start to its end

  /** The coordinator takes the last message of a job. */
  predicate EndsJob(s: State, e: Event, job: JobId) {
    e.CoordinatorTakes? && s.inbound != [] && s.inbound[0].JobDone? && s.inbound[0].job == job
  }

  /** A job that has not ended is the job that was started. */
  lemma JobStays(s: State, e: Event, job: JobId, fold: string -> string)
    requires CanHappen(s, e) && job in s.jobs && !EndsJob(s, e, job)
    ensures job in Next(s, e, fold).jobs && Next(s, e, fold).jobs[job].kind == s.jobs[job].kind
  {
    hide InStep, OutcomeOf, DeskAfter, Looked, TreeAfter, EntryOf, FinalReport, ChangesOf, Starts, CanLook;
    if e.Travel? || e.Do? || e.Reshape? || e.DeleteKeyword? || e.CancelJob? {
      OthersTouchNoJob(s, e, fold);
    } else {
    }
  }

  lemma {:induction false} JobAlongRun(states: seq<State>, events: seq<Event>, m: nat, n: nat, job: JobId,
                                       fold: string -> string)
    requires Run(states, events, fold) && m < n <= |events| && events[m].StartJob? && events[m].job == job
    requires forall i | m < i < n :: !EndsJob(states[i], events[i], job)
    ensures job in states[n].jobs && states[n].jobs[job].kind == events[m].kind
  {
    hide CanHappen, Next, EndsJob;
    if m + 1 < n {
      JobAlongRun(states, events, m, n - 1, job, fold);
      JobStays(states[n - 1], events[n - 1], job, fold);
    } else {
      JobStarts(states[m], events[m], fold);
    }
  }

  lemma JobStarts(s: State, e: Event, fold: string -> string)
    requires CanHappen(s, e) && e.StartJob?
    ensures e.job in Next(s, e, fold).jobs && Next(s, e, fold).jobs[e.job].kind == e.kind
  {
    hide InStep, Starts;
  }

  /** What the end of a sweep that nobody carries and under which nothing was kept leaves. */
  lemma CleanEnd(s: State, e: Event, job: JobId, branch: seq<KeywordId>, fold: string -> string)
    requires CanHappen(s, e) && EndsJob(s, e, job) && job in s.jobs
    requires s.jobs[job].kind.SweepKind? && s.jobs[job].kind.branch == branch
    requires InStep(s) && Apart(s.desk.tree, branch) && NoneCarried(s.desk.photos, branch)
    ensures var after := Next(s, e, fold);
            && after.desk.tree == s.desk.tree - (set k | k in branch) && InStep(after)
            && ((exists k :: k in branch && k in s.desk.tree) ==>
                  && after.journal != [] && after.journal[|after.journal| - 1] ==
                     s.jobs[job].changes + [VocabularyChange(DeleteDeltas(s.desk.tree, branch))])
  {
    SweepEndKeepsKnown(s.desk, branch);
    SweepKeepsParents(s.desk, branch);
    assert !KeptUnder(s.desk.tree, branch);
    hide NoneCarried, DeleteDeltas, FinalReport, AllKnown, NoMissingParent, KeptUnder;
  }

  /** From a sweep's start to its end: the run is in step, and nothing is put under the branch. */
  ghost predicate Undisturbed(states: seq<State>, events: seq<Event>, m: nat, n: nat, fold: string -> string)
    requires m < n < |events| && |states| == |events| + 1
  {
    && events[m].StartJob? && events[m].kind.SweepKind? && InStep(states[m])
    && EndsJob(states[n], events[n], events[m].job)
    && (forall i | m < i < n :: !EndsJob(states[i], events[i], events[m].job))
    && (forall i | m <= i < n :: !PutsUnder(states[i], events[i], events[m].kind.branch, fold))
    && forall i | m <= i < n :: !GoesAstray(states[i], events[i])
  }

  /** **A sweep nobody interferes with deletes its branch cleanly**: between its start and its end, as long as no
      keyword is made, moved or brought back under the branch and the catalogue stays in step, the end takes the branch
      out if nobody carries any of it, leaves no parent missing, and its step of the journal ends with the deletion. */
  lemma UndisturbedSweepDeletes(states: seq<State>, events: seq<Event>, m: nat, n: nat, fold: string -> string)
    requires Run(states, events, fold) && m < n < |events| && Undisturbed(states, events, m, n, fold)
    requires NoneCarried(states[n].desk.photos, events[m].kind.branch)
    ensures var branch, before, after := events[m].kind.branch, states[n].desk.tree, states[n + 1];
            && after.desk.tree == before - (set k | k in branch) && InStep(after)
            && ((exists k :: k in branch && k in before) ==>
                  && after.journal != []
                  && var step := after.journal[|after.journal| - 1];
                     step != [] && step[|step| - 1] == VocabularyChange(DeleteDeltas(before, branch)))
  {
    var job, branch := events[m].job, events[m].kind.branch;
    assert CanHappen(states[m], events[m]);
    BranchStartsApart(states[m].desk.tree, events[m].kind.id, branch);
    ApartAlongRun(states, events, m, n, branch, fold);
    InStepAlong(states, events, m, n, fold);
    JobAlongRun(states, events, m, n, job, fold);
    hide NoneCarried, IsBranch, DeleteDeltas, Next, CanHappen, GoesAstray, PutsUnder, Apart, InStep, EndsJob;
    CleanEnd(states[n], events[n], job, branch, fold);
  }

  // ---------------------------------------------------------------- nobody carries the branch at the end

  /** A photo carries some of a branch. */
  predicate Carries(desk: Desk, photo: PhotoId, branch: seq<KeywordId>) {
    photo in desk.photos && exists k :: k in desk.photos[photo].keywordIds && k in branch
  }

  /** A photo carries some of a branch that carried none of it. */
  ghost predicate Gains(before: Desk, after: Desk, branch: seq<KeywordId>) {
    exists p :: Carries(after, p, branch) && !Carries(before, p, branch)
  }

  /** The items of a job are where they were: with its worker, or with its last message. */
  predicate HasItems(s: State, job: JobId, items: seq<Item>) {
    if job in s.workers then s.workers[job].items == items
    else var mail := Mail(s.inbound, job); |mail| == 1 && mail[0].JobDone? && mail[0].last.items == items
  }

  /** A sweep under way: it has its items, and only photos whose turn has not come still carry any of the branch. */
  ghost predicate Sweeping(s: State, job: JobId, carriers: seq<PhotoId>, branch: seq<KeywordId>, items: seq<Item>) {
    && job in s.jobs && HasItems(s, job, items) && Sends(items, Removals(carriers, branch))
    && |s.jobs[job].log| <= |carriers|
    && forall p | Carries(s.desk, p, branch) :: p in carriers[|s.jobs[job].log|..]
  }

  /** The coordinator takes an item of a job. */
  predicate TakesItem(s: State, e: Event, job: JobId) {
    e.CoordinatorTakes? && s.inbound != [] && s.inbound[0].BatchItem? && s.inbound[0].job == job
  }

  /** A job on its track has applied its first items, in their order; the one on its way is the next. */
  lemma ItemsInOrder(s: State, job: JobId, items: seq<Item>, edits: seq<Edit>, fold: string -> string)
    requires OnTrack(s, job, fold) && job in s.jobs && HasItems(s, job, items) && Sends(items, edits)
    ensures |s.jobs[job].log| <= |edits|
    ensures s.inbound != [] && s.inbound[0].BatchItem? && s.inbound[0].job == job ==>
              job in s.workers && |s.jobs[job].log| < |edits| && s.inbound[0].edit == edits[|s.jobs[job].log|]
    ensures s.inbound != [] && s.inbound[0].JobDone? && s.inbound[0].job == job ==>
              job !in s.workers && |s.jobs[job].log| == s.inbound[0].last.looked
  {
    hide Books, Mail, EditsOf, MadeFrom;
    if s.inbound != [] && s.inbound[0].job == job {
      FirstMail(s.inbound, job);
      assert Mail(s.inbound, job)[0] == s.inbound[0];
    }
    var w := if job in s.workers then s.workers[job] else Mail(s.inbound, job)[0].last;
    FixedPrefix(w.sent, w.items[..w.looked]);
    assert |EditsOf(s.jobs[job].log)| == |s.jobs[job].log|;
  }

  /** What is not the job's own end leaves its items with it. */
  lemma ItemsStay(s: State, e: Event, job: JobId, items: seq<Item>, fold: string -> string)
    requires CanHappen(s, e) && job in s.jobs && OnTrack(s, job, fold) && HasItems(s, job, items) && !EndsJob(s, e, job)
    ensures HasItems(Next(s, e, fold), job, items)
  {
    hide Next, CanHappen, OnTrack, Mail;
    if e.Travel? || e.Do? || e.Reshape? || e.DeleteKeyword? || e.CancelJob? {
      OthersTouchNoJob(s, e, fold);
    } else if e.CoordinatorTakes? {
      TakenWithItems(s, e, job, items, fold);
    } else if e.WorkerEnds? {
      EndsWithItems(s, e, job, items, fold);
    } else {
      LooksWithItems(s, e, job, items, fold);
    }
  }

  lemma TakenWithItems(s: State, e: Event, job: JobId, items: seq<Item>, fold: string -> string)
    requires CanHappen(s, e) && e.CoordinatorTakes? && job in s.jobs && OnTrack(s, job, fold) && HasItems(s, job, items)
    requires !EndsJob(s, e, job)
    ensures HasItems(Next(s, e, fold), job, items)
  {
    FirstMail(s.inbound, job);
    assert s.inbound[0].job == job ==> Mail(s.inbound, job) != [] && Mail(s.inbound, job)[0] == s.inbound[0];
    WorkersAfterMessage(s, e, fold);
    hide Next, CanHappen, Mail, OnTrack;
  }

  lemma WorkersAfterMessage(s: State, e: Event, fold: string -> string)
    requires CanHappen(s, e) && e.CoordinatorTakes?
    ensures var after, job := Next(s, e, fold), s.inbound[0].job;
            && after.inbound == s.inbound[1..]
            && after.workers == if s.inbound[0].BatchItem? && job in s.workers
                                then s.workers[job := s.workers[job].(waits := false)] else s.workers
  {
    hide InStep, OutcomeOf, DeskAfter, Logged, EntryOf, FinalReport, TreeAfter, Recorded;
  }

  lemma LooksWithItems(s: State, e: Event, job: JobId, items: seq<Item>, fold: string -> string)
    requires CanHappen(s, e) && (e.WorkerLooks? || e.StartJob?) && job in s.jobs && HasItems(s, job, items)
    ensures HasItems(Next(s, e, fold), job, items)
  {
    hide InStep, Mail, CanLook, Starts;
    if e.WorkerLooks? && e.look.Send? {
      MailMore(s.inbound, BatchItem(e.job, e.look.edit), job);
    }
    if e.WorkerLooks? && e.look.Skip? {
      assert s.inbound + [] == s.inbound;
    }
  }

  lemma EndsWithItems(s: State, e: Event, job: JobId, items: seq<Item>, fold: string -> string)
    requires CanHappen(s, e) && e.WorkerEnds? && job in s.jobs && OnTrack(s, job, fold) && HasItems(s, job, items)
    ensures HasItems(Next(s, e, fold), job, items)
  {
    hide InStep, Mail, Books, WorkerOk, EditsOf;
    var m := JobDone(e.job, s.workers[e.job]);
    MailMore(s.inbound, m, job);
    assert [] + [m] == [m];
  }

  /** The coordinator takes an item of the sweep: the photo whose turn it was carries none of the branch. */
  lemma SweepsOne(s: State, e: Event, job: JobId, carriers: seq<PhotoId>, branch: seq<KeywordId>, items: seq<Item>,
                  fold: string -> string)
    requires CanHappen(s, e) && OnTrack(s, job, fold) && Sweeping(s, job, carriers, branch, items)
    requires TakesItem(s, e, job) && e.writes && !Gains(s.desk, Next(s, e, fold).desk, branch)
    ensures Sweeping(Next(s, e, fold), job, carriers, branch, items)
  {
    hide Next, CanHappen, OnTrack, HasItems, DeskAfter, Sends;
    ItemsStay(s, e, job, items, fold);
    ItemsInOrder(s, job, items, Removals(carriers, branch), fold);
    LogGrows(s, e, job, fold);
    NextDesk(s, e, fold);
    var n, after := |s.jobs[job].log|, Next(s, e, fold);
    assert s.inbound[0].edit == RemoveKeywords(carriers[n], branch);
    if carriers[n] in s.desk.photos {
      RemovalTaken(s.desk, carriers[n], branch, fold);
    }
    forall p | Carries(after.desk, p, branch) ensures p in carriers[n + 1..] {
      assert Carries(s.desk, p, branch) && p in carriers[n..];
      assert carriers[n..] == [carriers[n]] + carriers[n + 1..];
    }
  }

  lemma LogGrows(s: State, e: Event, job: JobId, fold: string -> string)
    requires CanHappen(s, e) && TakesItem(s, e, job) && job in s.jobs
    ensures job in Next(s, e, fold).jobs && |Next(s, e, fold).jobs[job].log| == |s.jobs[job].log| + 1
  {
    hide InStep, OutcomeOf, DeskAfter;
  }

  lemma LogStays(s: State, e: Event, job: JobId, fold: string -> string)
    requires CanHappen(s, e) && job in s.jobs && !EndsJob(s, e, job) && !TakesItem(s, e, job)
    ensures job in Next(s, e, fold).jobs && Next(s, e, fold).jobs[job].log == s.jobs[job].log
  {
    if e.Travel? || e.Do? || e.Reshape? || e.DeleteKeyword? || e.CancelJob? {
      OthersTouchNoJob(s, e, fold);
      hide Next;
    } else {
      hide InStep, OutcomeOf, DeskAfter, Looked, TreeAfter, EntryOf, FinalReport, Starts, CanLook;
    }
  }

  /** An event that lets a sweep go on: not its end, a write that succeeds when it is of the sweep, and no photo gains a
      keyword of the branch. */
  ghost predicate LetsSweep(s: State, e: Event, after: State, job: JobId, branch: seq<KeywordId>) {
    && !EndsJob(s, e, job) && (TakesItem(s, e, job) ==> e.writes) && !Gains(s.desk, after.desk, branch)
  }

  lemma SweepGoesOn(s: State, e: Event, job: JobId, carriers: seq<PhotoId>, branch: seq<KeywordId>, items: seq<Item>,
                    fold: string -> string)
    requires CanHappen(s, e) && OnTrack(s, job, fold) && Sweeping(s, job, carriers, branch, items)
    requires LetsSweep(s, e, Next(s, e, fold), job, branch)
    ensures Sweeping(Next(s, e, fold), job, carriers, branch, items)
  {
    hide Next, CanHappen, OnTrack, HasItems, Sends, Removals, Carries;
    if TakesItem(s, e, job) {
      SweepsOne(s, e, job, carriers, branch, items, fold);
    } else {
      ItemsStay(s, e, job, items, fold);
      LogStays(s, e, job, fold);
    }
  }

  lemma SweepStarts(s: State, e: Event, carriers: seq<PhotoId>, fold: string -> string)
    requires CanHappen(s, e) && e.StartJob? && e.kind.SweepKind?
    requires AreCarriers(s.desk.photos, e.kind.branch, carriers) && Sends(e.items, Removals(carriers, e.kind.branch))
    ensures Sweeping(Next(s, e, fold), e.job, carriers, e.kind.branch, e.items)
  {
    hide InStep, Sends, Removals, IsBranch, Starts, Mail;
    assert carriers[0..] == carriers;
  }

  /** Every event in between lets the sweep go on. */
  ghost predicate LetSweep(states: seq<State>, events: seq<Event>, m: nat, n: nat, job: JobId, branch: seq<KeywordId>)
    requires n <= |events| < |states|
  {
    forall i | m < i < n :: LetsSweep(states[i], events[i], states[i + 1], job, branch)
  }

  lemma {:induction false} SweepAlongRun(states: seq<State>, events: seq<Event>, m: nat, n: nat, job: JobId,
                                         carriers: seq<PhotoId>, branch: seq<KeywordId>, items: seq<Item>,
                                         fold: string -> string)
    requires Run(states, events, fold) && NoJobs(states[0]) && m < n <= |events|
    requires Sweeping(states[m + 1], job, carriers, branch, items) && LetSweep(states, events, m, n, job, branch)
    ensures Sweeping(states[n], job, carriers, branch, items)
  {
    hide Next, CanHappen, OnTrack, Sweeping, LetsSweep, NoJobs;
    if m + 1 < n {
      SweepAlongRun(states, events, m, n - 1, job, carriers, branch, items, fold);
      AlwaysOnTrack(states, events, n - 1, job, fold);
      assert LetsSweep(states[n - 1], events[n - 1], states[n - 1 + 1], job, branch);
      SweepGoesOn(states[n - 1], events[n - 1], job, carriers, branch, items, fold);
    }
  }

  /** **A sweep that sends everything leaves nobody with its branch**: when all its items were sent and written, and
      nothing between its start and its end gave a photo a keyword of the branch, nobody carries any of it at its
      end. */
  lemma SweepLeavesNobody(states: seq<State>, events: seq<Event>, m: nat, n: nat, fold: string -> string)
    requires Run(states, events, fold) && NoJobs(states[0]) && m < n < |events|
    requires events[m].StartJob? && events[m].kind.SweepKind?
    requires EndsJob(states[n], events[n], events[m].job) && states[n].inbound[0].last.looked == |events[m].items|
    requires LetSweep(states, events, m, n, events[m].job, events[m].kind.branch)
    ensures NoneCarried(states[n].desk.photos, events[m].kind.branch)
  {
    var job, branch, items := events[m].job, events[m].kind.branch, events[m].items;
    RunAt(states, events, m, fold);
    assert Starts(states[m].desk, events[m].kind, items);
    var carriers :| AreCarriers(states[m].desk.photos, branch, carriers) && Sends(items, Removals(carriers, branch));
    SweepStarts(states[m], events[m], carriers, fold);
    SweepAlongRun(states, events, m, n, job, carriers, branch, items, fold);
    AlwaysOnTrack(states, events, n, job, fold);
    hide Next, CanHappen, OnTrack, Run, HasItems, NoJobs, LetsSweep, LetSweep, AreCarriers;
    ItemsInOrder(states[n], job, items, Removals(carriers, branch), fold);
    assert carriers[|states[n].jobs[job].log|..] == [];
    forall p | p in states[n].desk.photos ensures forall k | k in states[n].desk.photos[p].keywordIds :: k !in branch {
      assert !Carries(states[n].desk, p, branch);
    }
  }

  /** **Such a sweep deletes its branch**: nothing more is needed than that it ran to its end, its writes succeeded, and
      nothing put a keyword under the branch, gave a photo one of it or cost the catalogue its step meanwhile. */
  lemma FullSweepDeletes(states: seq<State>, events: seq<Event>, m: nat, n: nat, fold: string -> string)
    requires Run(states, events, fold) && NoJobs(states[0]) && m < n < |events|
             && Undisturbed(states, events, m, n, fold)
    requires states[n].inbound[0].last.looked == |events[m].items|
    requires LetSweep(states, events, m, n, events[m].job, events[m].kind.branch)
    ensures states[n + 1].desk.tree == states[n].desk.tree - (set k | k in events[m].kind.branch)
    ensures InStep(states[n + 1])
  {
    SweepLeavesNobody(states, events, m, n, fold);
    UndisturbedSweepDeletes(states, events, m, n, fold);
  }
}
