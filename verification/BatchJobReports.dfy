// What the report of the place names counts, over a whole run: each look at a photo for what it came to.
module BatchJobReports {
  import opened Wrappers
  import opened Journal
  import opened PhotoEdits
  import opened BatchJobs

  /** How many of the events are looks of the job. */
  function Looks(events: seq<Event>, job: JobId): nat {
    if events == [] then 0
    else
      var last := events[|events| - 1];
      Looks(events[..|events| - 1], job) + if last.WorkerLooks? && last.job == job then 1 else 0
  }

  /** How many are looks of the job that found this reason to skip the photo. */
  function Skips(events: seq<Event>, job: JobId, why: SkipReason): nat {
    if events == [] then 0
    else
      Skips(events[..|events| - 1], job, why) + if events[|events| - 1] == WorkerLooks(job, Skip(why)) then 1 else 0
  }

  /** The worker's report counts its looks by what they came to. */
  predicate Tells(report: Report, events: seq<Event>, job: JobId) {
    && report.photos == Looks(events, job)
    && report.hadPlace == Skips(events, job, HadPlace)
    && report.noPosition == Skips(events, job, NoPosition)
    && report.openWater == Skips(events, job, OpenWater)
    && report.failed == Skips(events, job, Unreadable)
  }

  /** The report is with the worker, or on its way with the worker's last message. */
  predicate Kept(s: State, events: seq<Event>, job: JobId) {
    && (job in s.workers ==> Tells(s.workers[job].report, events, job))
    && forall m | m in s.inbound && m.JobDone? && m.job == job :: Tells(m.last.report, events, job)
  }

  lemma OneEventMore(events: seq<Event>, e: Event, job: JobId)
    ensures Looks(events + [e], job) == Looks(events, job) + if e.WorkerLooks? && e.job == job then 1 else 0
    ensures forall why ::
              Skips(events + [e], job, why) ==
              Skips(events, job, why) + if e == WorkerLooks(job, Skip(why)) then 1 else 0
  {
    assert (events + [e])[..|events|] == events;
  }

  lemma {:induction false} InTheMail(inbound: seq<Message>, job: JobId)
    ensures forall m | m in inbound && m.job == job :: m in Mail(inbound, job)
  {
    if inbound != [] {
      InTheMail(inbound[1..], job);
      assert inbound == [inbound[0]] + inbound[1..];
    }
  }

  /** While a job has a worker, its last message is not on its way; and a job that is not there has none. */
  lemma NotDoneYet(s: State, job: JobId, fold: string -> string)
    requires OnTrack(s, job, fold) && (job in s.workers || job !in s.jobs)
    ensures forall m | m in s.inbound && m.JobDone? :: m.job != job
  {
    hide Books, WorkerOk, EditsOf, Mail;
    InTheMail(s.inbound, job);
  }

  lemma LookTells(w: Worker, look: Look, events: seq<Event>, job: JobId)
    requires Tells(w.report, events, job)
    ensures Tells(Looked(w, look).report, events + [WorkerLooks(job, look)], job)
  {
    OneEventMore(events, WorkerLooks(job, look), job);
  }

  /** An event that is no look of the job leaves what was counted. */
  lemma OthersTell(report: Report, events: seq<Event>, e: Event, job: JobId)
    requires Tells(report, events, job) && !(e.WorkerLooks? && e.job == job)
    ensures Tells(report, events + [e], job)
  {
    OneEventMore(events, e, job);
  }

  /** What an event that is no look of the job leaves of its worker and of the last messages. */
  lemma ReportsStay(s: State, e: Event, job: JobId, fold: string -> string)
    requires CanHappen(s, e) && !(e.StartJob? && e.job == job) && !(e.WorkerLooks? && e.job == job)
    ensures var t := Next(s, e, fold);
            && (job in t.workers ==> job in s.workers && t.workers[job].report == s.workers[job].report)
            && forall m | m in t.inbound && m.JobDone? && m.job == job ::
                 m in s.inbound || (job in s.workers && m.last == s.workers[job])
  {
    hide InStep, OutcomeOf, DeskAfter, Logged, EntryOf, FinalReport, TreeAfter, Recorded, Starts, CanLook;
    if e.CancelJob? || e.Do? || e.Reshape? || e.DeleteKeyword? || e.Travel? {
      OthersTouchNoJob(s, e, fold);
    }
  }

  lemma OneMoreKept(s: State, e: Event, events: seq<Event>, job: JobId, fold: string -> string)
    requires OnTrack(s, job, fold) && CanHappen(s, e) && Kept(s, events, job) && !(e.StartJob? && e.job == job)
    ensures Kept(Next(s, e, fold), events + [e], job)
  {
    hide OnTrack, Tells, Looks, Skips, InStep, CanLook;
    if e.WorkerLooks? && e.job == job {
      NotDoneYet(s, job, fold);
      LookTells(s.workers[job], e.look, events, job);
    } else {
      ReportsStay(s, e, job, fold);
      hide Next, CanHappen;
      forall report | Tells(report, events, job) ensures Tells(report, events + [e], job) {
        OthersTell(report, events, e, job);
      }
    }
  }

  lemma StartedKept(s: State, e: Event, job: JobId, fold: string -> string)
    requires OnTrack(s, job, fold) && CanHappen(s, e) && e.StartJob? && e.job == job
    ensures Kept(Next(s, e, fold), [], job)
  {
    hide OnTrack, InStep, Starts;
    NotDoneYet(s, job, fold);
  }

  /** Along a run, from the start of a job on, as long as no job of that name starts again. */
  lemma {:induction false} AlwaysKept(states: seq<State>, events: seq<Event>, start: nat, n: nat, job: JobId,
                                      fold: string -> string)
    requires Run(states, events, fold) && NoJobs(states[0]) && start < n <= |events|
    requires events[start].StartJob? && events[start].job == job
    requires forall i | start < i < n :: !(events[i].StartJob? && events[i].job == job)
    ensures Kept(states[n], events[start + 1..n], job)
  {
    hide OnTrack, Next, CanHappen, Kept, Tells;
    AlwaysOnTrack(states, events, n - 1, job, fold);
    RunAt(states, events, n - 1, fold);
    if n == start + 1 {
      StartedKept(states[start], events[start], job, fold);
      assert events[start + 1..n] == [];
    } else {
      AlwaysKept(states, events, start, n - 1, job, fold);
      OneMoreKept(states[n - 1], events[n - 1], events[start + 1..n - 1], job, fold);
      assert events[start + 1..n] == events[start + 1..n - 1] + [events[n - 1]];
    }
  }

  /** **The report says what happened to the photos**: over any run, when a job of place names ends, its report counts
      the looks that found no position and those in open water; as having their places those that had them at the look
      and those where the write changed nothing; as failed those that could not be read and those whose write was
      refused; and as filled exactly those whose write changed something. */
  lemma ReportSays(states: seq<State>, events: seq<Event>, start: nat, end: nat, job: JobId, fold: string -> string)
    requires Run(states, events, fold) && NoJobs(states[0]) && start < end < |events|
    requires events[start].StartJob? && events[start].job == job && events[start].kind == PlaceKind
    requires forall i | start < i < end :: !(events[i].StartJob? && events[i].job == job)
    requires events[end].CoordinatorTakes? && states[end].inbound != [] && states[end].inbound[0].JobDone?
             && states[end].inbound[0].job == job && states[end].inbound[0].last.kind == PlaceKind
    ensures job in states[end].jobs && job in states[end + 1].reports
    ensures var log, report, run := states[end].jobs[job].log, states[end + 1].reports[job], events[start + 1..end];
            && report.photos == Looks(run, job)
            && report.noPosition == Skips(run, job, NoPosition)
            && report.openWater == Skips(run, job, OpenWater)
            && report.hadPlace == Skips(run, job, HadPlace) + Sames(log, fold)
            && report.failed == Skips(run, job, Unreadable) + Refusals(log, fold)
            && report.filled == |ChangesOf(log, fold)|
            && EditsOf(log) == states[end].inbound[0].last.sent
  {
    hide OnTrack, InStep, Looks, Skips, ChangesOf, Sames, Refusals, OutcomeOf, TreeAfter, EntryOf, WorkerOk, Starts;
    AlwaysKept(states, events, start, end, job, fold);
    AlwaysOnTrack(states, events, end, job, fold);
    RunAt(states, events, end, fold);
    DoneIsLast(states[end], fold);
    assert states[end].inbound[0] in states[end].inbound;
  }
}
