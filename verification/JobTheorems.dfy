/** Consequences of the invariant: no deadlock, order, statuses, shutdown. */
module JobTheorems {
  import opened JobProtocol
  import opened JobInvariants

  // ---- nobody sleeps on a queued job ----

  /** Steps of the workers and of pushes that are already under way. */
  predicate Internal(step: Step) {
    !step.AddJob? && !step.Enqueue? && !step.SpuriousWakeup? && !step.Quit? && !step.Cleanup?
  }

  /** The step a worker can take by itself, if it is not asleep. */
  function OwnStep(s: State, w: nat): Step
    requires w < |s.workers|
  {
    match s.workers[w]
    case AtPop => PopNoWait(w)
    case AtCheck => ReadContinue(w)
    case AtLock => EnterWait(w)
    case Woken => Reacquire(w)
    case Holding(_) => Begin(w)
    case Working(_) => Finish(w, true, 0)
    case _ => Join
  }

  lemma OwnStepEnabled(s: State, w: nat)
    requires Inv(s) && !s.aborted && w < |s.workers| && s.workers[w] != Parked && s.workers[w] != Exited
    ensures Enabled(s, OwnStep(s, w)) && Internal(OwnStep(s, w))
  {
  }

  /** No deadlock: while a job is queued and the queue is open, the workers need no new push, no
      spurious wakeup and no luck to go on: some worker is awake or a notification is pending. */
  lemma QueuedJobMovesOn(s: State)
    requires Inv(s) && !s.aborted && s.continue_ && s.queue != [] && s.workers != []
    ensures exists step :: Internal(step) && Enabled(s, step)
  {
    if w :| 0 <= w < |s.workers| && s.workers[w] != Parked {
      OwnStepEnabled(s, w);
    } else {
      assert s.workers[0] == Parked;
      CountZero(s.workers);
      assert s.notifies > 0;
      assert Internal(NotifyOne(0)) && Enabled(s, NotifyOne(0));
    }
  }

  // ---- order ----

  /** Histories only grow at the end, and the queue stays closed once closed. */
  lemma {:induction false} HistoryGrows(s: State, steps: seq<Step>)
    requires IsRun(s, steps)
    ensures var t := Run(s, steps);
            s.popped <= t.popped && s.pushed <= t.pushed && (!s.continue_ ==> !t.continue_)
            && |t.workers| == |s.workers|
    decreases |steps|
  {
    if steps != [] { HistoryGrows(Next(s, steps[0]), steps[1..]); }
  }

  /** First in, first out over every run: the k-th job dequeued is the k-th job pushed. */
  lemma Fifo(n: nat, steps: seq<Step>, k: nat)
    requires IsRun(Init(n), steps) && k < |Run(Init(n), steps).popped|
    ensures var t := Run(Init(n), steps);
            |t.popped| <= |t.pushed| && t.popped[k] == t.pushed[k]
            && t.pushed[|t.popped|..] == t.queue
  {
    InitInv(n);
    InvRun(Init(n), steps);
  }

  // ---- statuses ----

  /** QUEUED -> IN_PROCESS -> FINISHED or FAILED, and never back. */
  predicate Forward(a: Status, b: Status) {
    a == b || a == QUEUED || (a == IN_PROCESS && IsDone(b))
  }

  /** One step moves a status at most one place, along the arrows. */
  lemma StatusArrow(s: State, step: Step, id: Id)
    requires Inv(s) && Enabled(s, step) && id in s.jobs
    ensures var t := Next(s, step);
            id in t.jobs &&
            var a, b := s.jobs[id].status, t.jobs[id].status;
            a == b || (a == QUEUED && b == IN_PROCESS) || (a == IN_PROCESS && IsDone(b))
  {
  }

  lemma {:induction false} StatusForward(s: State, steps: seq<Step>, id: Id)
    requires Inv(s) && IsRun(s, steps) && id in s.jobs
    ensures id in Run(s, steps).jobs && Forward(s.jobs[id].status, Run(s, steps).jobs[id].status)
    ensures IsDone(s.jobs[id].status) ==> Run(s, steps).jobs[id] == s.jobs[id]
    decreases |steps|
  {
    if steps != [] {
      StatusArrow(s, steps[0], id);
      if IsDone(s.jobs[id].status) { DoneStays(s, steps[0], id); }
      InvStep(s, steps[0]);
      StatusForward(Next(s, steps[0]), steps[1..], id);
    }
  }

  /** A finished job keeps its status and its time. */
  lemma DoneStays(s: State, step: Step, id: Id)
    requires Inv(s) && Enabled(s, step) && id in s.jobs && IsDone(s.jobs[id].status)
    ensures id in Next(s, step).jobs && Next(s, step).jobs[id] == s.jobs[id]
  {
  }

  // ---- outcomes, over whole runs ----

  lemma {:induction false} RunPrefix(s: State, steps: seq<Step>, k: nat)
    requires IsRun(s, steps) && k < |steps|
    ensures IsRun(s, steps[..k]) && Enabled(Run(s, steps[..k]), steps[k])
    ensures IsRun(s, steps[..k + 1]) && Run(s, steps[..k + 1]) == Next(Run(s, steps[..k]), steps[k])
    decreases k
  {
    if k == 0 {
      assert steps[..0] == [] && steps[..1] == [steps[0]] && [steps[0]][1..] == [];
    } else {
      RunPrefix(Next(s, steps[0]), steps[1..], k - 1);
      assert steps[..k][1..] == steps[1..][..k - 1] && steps[..k + 1][1..] == steps[1..][..k];
    }
  }

  /** The step with which worker w ends its work, well if ok, with an error otherwise, handled or not. */
  predicate EndStep(step: Step, w: nat, now: int, ok: bool) {
    if ok then step == Finish(w, true, now) else step == Finish(w, false, now) || step == Crash(w, now)
  }

  /** Step k ends the work on this job: at that point the worker is Working on it. */
  ghost predicate EndsWork(s: State, steps: seq<Step>, k: nat, w: nat, id: Id, now: int, ok: bool) {
    k < |steps| && IsRun(s, steps[..k]) && HasWorker(Run(s, steps[..k]), w, Working(id)) && EndStep(steps[k], w, now, ok)
  }

  ghost predicate WorkEnded(s: State, steps: seq<Step>, id: Id, now: int, ok: bool) {
    exists k: nat, w: nat :: EndsWork(s, steps, k, w, id, now, ok)
  }

  ghost predicate Ended(s: State, id: Id, status: Status, now: int) { id in s.jobs && s.jobs[id] == Job(status, now) }

  lemma EndsWorkEarlier(s: State, front: seq<Step>, last: Step, k: nat, w: nat, id: Id, now: int, ok: bool)
    requires k < |front|
    ensures EndsWork(s, front + [last], k, w, id, now, ok) <==> EndsWork(s, front, k, w, id, now, ok)
  {
    assert (front + [last])[..k] == front[..k];
  }

  /** One more step ends this job's work exactly if it is that step of the worker Working on it. */
  lemma WorkEndedSnoc(s: State, front: seq<Step>, last: Step, id: Id, now: int, ok: bool)
    requires IsRun(s, front)
    ensures WorkEnded(s, front + [last], id, now, ok) <==>
            WorkEnded(s, front, id, now, ok)
            || exists w: nat :: HasWorker(Run(s, front), w, Working(id)) && EndStep(last, w, now, ok)
  {
    var all := front + [last];
    assert all[..|front|] == front && all[|front|] == last;
    if WorkEnded(s, front, id, now, ok) {
      var k: nat, w: nat :| EndsWork(s, front, k, w, id, now, ok);
      EndsWorkEarlier(s, front, last, k, w, id, now, ok);
    }
    if w: nat :| HasWorker(Run(s, front), w, Working(id)) && EndStep(last, w, now, ok) {
      assert EndsWork(s, all, |front|, w, id, now, ok);
    }
    if WorkEnded(s, all, id, now, ok) {
      var k: nat, w: nat :| EndsWork(s, all, k, w, id, now, ok);
      if k < |front| { EndsWorkEarlier(s, front, last, k, w, id, now, ok); }
    }
  }

  lemma {:induction false} EndedByStep(s: State, step: Step, id: Id, now: int, ok: bool, w: nat)
    requires Inv(s) && Enabled(s, step) && HasWorker(s, w, Working(id)) && EndStep(step, w, now, ok)
    ensures Ended(Next(s, step), id, if ok then FINISHED else FAILED, now)
  {
  }

  lemma {:induction false} EndedOnlySo(s: State, step: Step, id: Id, now: int, ok: bool)
    requires Inv(s) && Enabled(s, step) && Ended(Next(s, step), id, if ok then FINISHED else FAILED, now)
    ensures Ended(s, id, if ok then FINISHED else FAILED, now)
            || ((step.Finish? || step.Crash?) && HasWorker(s, step.w, Working(id)) && EndStep(step, step.w, now, ok))
  {
  }

  /** A job becomes FINISHED or FAILED in exactly one way each. */
  lemma {:induction false} EndedStep(s: State, step: Step, id: Id, now: int, ok: bool)
    requires Inv(s) && Enabled(s, step)
    ensures var status := if ok then FINISHED else FAILED;
            Ended(Next(s, step), id, status, now) <==>
            Ended(s, id, status, now) || exists w: nat :: HasWorker(s, w, Working(id)) && EndStep(step, w, now, ok)
  {
    var status := if ok then FINISHED else FAILED;
    if Ended(s, id, status, now) { DoneStays(s, step, id); }
    if Ended(Next(s, step), id, status, now) { EndedOnlySo(s, step, id, now, ok); }
    if w: nat :| HasWorker(s, w, Working(id)) && EndStep(step, w, now, ok) { EndedByStep(s, step, id, now, ok, w); }
  }

  lemma LastStep(s: State, steps: seq<Step>)
    requires IsRun(s, steps) && steps != []
    ensures var k := |steps| - 1;
            IsRun(s, steps[..k]) && Enabled(Run(s, steps[..k]), steps[k]) && Run(s, steps) == Next(Run(s, steps[..k]), steps[k])
            && steps == steps[..k] + [steps[k]]
  {
    RunPrefix(s, steps, |steps| - 1);
    assert steps[..|steps|] == steps;
  }

  /** The outcome of the work decides the status, over every run: a job is FINISHED, since a given
      time, exactly if its worker's pull or removal returned at that time, and FAILED exactly if it
      threw. */
  lemma {:induction false} OutcomeDecides(n: nat, steps: seq<Step>, id: Id, now: int)
    requires IsRun(Init(n), steps)
    ensures Ended(Run(Init(n), steps), id, FINISHED, now) <==> WorkEnded(Init(n), steps, id, now, true)
    ensures Ended(Run(Init(n), steps), id, FAILED, now) <==> WorkEnded(Init(n), steps, id, now, false)
    decreases |steps|
  {
    if steps != [] {
      LastStep(Init(n), steps);
      OutcomeDecides(n, steps[..|steps| - 1], id, now);
      OutcomeSnoc(n, steps, id, now, true);
      OutcomeSnoc(n, steps, id, now, false);
    }
  }

  lemma {:induction false} OutcomeSnoc(n: nat, steps: seq<Step>, id: Id, now: int, ok: bool)
    requires IsRun(Init(n), steps) && steps != [] && IsRun(Init(n), steps[..|steps| - 1])
    requires Ended(Run(Init(n), steps[..|steps| - 1]), id, if ok then FINISHED else FAILED, now)
        <==> WorkEnded(Init(n), steps[..|steps| - 1], id, now, ok)
    ensures Ended(Run(Init(n), steps), id, if ok then FINISHED else FAILED, now) <==> WorkEnded(Init(n), steps, id, now, ok)
  {
    var s := Init(n);
    var front, last := steps[..|steps| - 1], steps[|steps| - 1];
    LastStep(s, steps);
    InitInv(n);
    InvRun(s, front);
    EndedStep(Run(s, front), last, id, now, ok);
    WorkEndedSnoc(s, front, last, id, now, ok);
  }

  // ---- the cleanup, over whole runs ----

  /** At step k a cleanup pass at this time finds the job finished more than maxAge ago. */
  ghost predicate CleansUp(s: State, steps: seq<Step>, k: nat, id: Id) {
    && k < |steps| && IsRun(s, steps[..k]) && steps[k].Cleanup?
    && TooOld(Run(s, steps[..k]), id, steps[k].now, steps[k].maxAge)
  }

  ghost predicate TooOld(s: State, id: Id, now: int, maxAge: nat) {
    && id in s.jobs && (s.jobs[id].status == FINISHED || s.jobs[id].status == FAILED)
    && s.jobs[id].timeFinished + maxAge < now
  }

  ghost predicate CleanedUp(s: State, steps: seq<Step>, id: Id) { exists k: nat :: CleansUp(s, steps, k, id) }

  lemma CleansUpEarlier(s: State, front: seq<Step>, last: Step, k: nat, id: Id)
    requires k < |front|
    ensures CleansUp(s, front + [last], k, id) <==> CleansUp(s, front, k, id)
  {
    assert (front + [last])[..k] == front[..k];
  }

  lemma CleanedUpSnoc(s: State, front: seq<Step>, last: Step, id: Id)
    requires IsRun(s, front)
    ensures CleanedUp(s, front + [last], id) <==>
            CleanedUp(s, front, id) || (last.Cleanup? && TooOld(Run(s, front), id, last.now, last.maxAge))
  {
    var all := front + [last];
    assert all[..|front|] == front && all[|front|] == last;
    if CleanedUp(s, front, id) {
      var k: nat :| CleansUp(s, front, k, id);
      CleansUpEarlier(s, front, last, k, id);
    }
    if last.Cleanup? && TooOld(Run(s, front), id, last.now, last.maxAge) { assert CleansUp(s, all, |front|, id); }
    if CleanedUp(s, all, id) {
      var k: nat :| CleansUp(s, all, k, id);
      if k < |front| { CleansUpEarlier(s, front, last, k, id); }
    }
  }

  /** A job that was ever added is gone from the map exactly if some cleanup pass came more than its
      maxAge after the job's end. */
  lemma {:induction false} CleanedExactly(n: nat, steps: seq<Step>, id: Id)
    requires IsRun(Init(n), steps)
    ensures var t := Run(Init(n), steps); id in t.jobs && id !in t.jobMap <==> CleanedUp(Init(n), steps, id)
    decreases |steps|
  {
    if steps != [] {
      var s := Init(n);
      var front, last := steps[..|steps| - 1], steps[|steps| - 1];
      LastStep(s, steps);
      CleanedExactly(n, front, id);
      InitInv(n);
      InvRun(s, front);
      CleanedUpSnoc(s, front, last, id);
      GoneStep(Run(s, front), last, id);
    }
  }

  lemma {:induction false} GoneStep(s: State, step: Step, id: Id)
    requires Inv(s) && Enabled(s, step)
    ensures var t := Next(s, step);
            id in t.jobs && id !in t.jobMap <==>
            (id in s.jobs && id !in s.jobMap) || (step.Cleanup? && TooOld(s, id, step.now, step.maxAge))
  {
  }

  // ---- shutdown ----

  function Rank(p: Phase): nat {
    match p
    case Exited => 0
    case Parked => 0
    case AtLock => 1
    case Woken => 1
    case AtCheck => 2
    case AtPop => 3
    case Working(_) => 4
    case Holding(_) => 5
  }

  function Ranks(ws: seq<Phase>): nat {
    if ws == [] then 0 else Rank(ws[0]) + Ranks(ws[1..])
  }

  /** Work left after quit: queued jobs, unfinished loop iterations, notifications and joins. */
  function WorkLeft(s: State): int {
    3 * |s.queue| + Ranks(s.workers) + s.notifies + (|s.workers| - s.joined)
  }

  lemma {:induction false} RanksUpdate(ws: seq<Phase>, w: nat, p: Phase)
    requires w < |ws|
    ensures Ranks(ws[w := p]) == Ranks(ws) - Rank(ws[w]) + Rank(p)
  {
    if w == 0 {
      assert ws[w := p][1..] == ws[1..];
    } else {
      assert ws[w := p][1..] == ws[1..][w - 1 := p];
      RanksUpdate(ws[1..], w - 1, p);
    }
  }

  lemma WorkMove(s: State, t: State, w: nat, p: Phase)
    requires w < |s.workers| && t.workers == s.workers[w := p] && t.notifies == s.notifies && t.joined == s.joined
    requires 3 * |t.queue| + Rank(p) < 3 * |s.queue| + Rank(s.workers[w])
    ensures WorkLeft(t) < WorkLeft(s)
  {
    RanksUpdate(s.workers, w, p);
  }

  /** After quit every step of a worker, of a pending notification or of a join uses up work. */
  lemma {:induction false} WorkDrops(s: State, step: Step)
    requires Inv(s) && !s.continue_ && Enabled(s, step) && Internal(step)
    ensures WorkLeft(Next(s, step)) < WorkLeft(s)
  {
    var t := Next(s, step);
    match step
    case NotifyOne(_) =>
    case NotifyNobody =>
    case PopNoWait(w) => WorkMove(s, t, w, t.workers[w]);
    case ReadContinue(w) => WorkMove(s, t, w, Exited);
    case EnterWait(w) => WorkMove(s, t, w, Exited);
    case Reacquire(w) => WorkMove(s, t, w, Exited);
    case Begin(w) => WorkMove(s, t, w, t.workers[w]);
    case Finish(w, _, _) => WorkMove(s, t, w, AtPop);
    case Crash(w, _) => WorkMove(s, t, w, Exited);
    case Join =>
  }

  /** As long as not every worker is joined there is such a step to take. */
  lemma ShutdownProgress(s: State)
    requires Inv(s) && !s.continue_ && !s.aborted && s.joined < |s.workers|
    ensures exists step :: Internal(step) && Enabled(s, step)
  {
    if s.workers[s.joined] == Exited {
      assert Internal(Join) && Enabled(s, Join);
    } else {
      assert s.workers[s.joined] in s.workers;
      OwnStepEnabled(s, s.joined);
    }
  }

  function CountInternal(steps: seq<Step>): nat {
    if steps == [] then 0 else (if Internal(steps[0]) then 1 else 0) + CountInternal(steps[1..])
  }

  function CountEnqueue(steps: seq<Step>): nat {
    if steps == [] then 0 else (if steps[0].Enqueue? then 1 else 0) + CountEnqueue(steps[1..])
  }

  /** The other steps: a job pushed into the closed queue adds four units of work, and a cleanup
      pass, a second quit or a new map entry none. */
  lemma {:induction false} OtherSteps(s: State, step: Step)
    requires Inv(s) && !s.continue_ && Enabled(s, step) && !Internal(step)
    ensures WorkLeft(Next(s, step)) == WorkLeft(s) + if step.Enqueue? then 4 else 0
  {
    if step.Quit? {
      assert forall w | 0 <= w < |s.workers| :: s.workers[w] in s.workers;
      assert WakeAll(s.workers) == s.workers;
    }
  }

  /** Shutdown terminates, in every interleaving: after quit the workers, the pending notifications
      and the joins take at most WorkLeft steps and four more for each job still pushed, however
      many cleanup passes come in between; and when none of them can go on, every worker has exited
      and been joined, or the process died. */
  lemma {:induction false} ShutdownTerminates(s: State, steps: seq<Step>)
    requires Inv(s) && !s.continue_ && IsRun(s, steps)
    ensures CountInternal(steps) <= WorkLeft(s) + 4 * CountEnqueue(steps)
    ensures var t := Run(s, steps);
            (forall step | Internal(step) :: !Enabled(t, step)) ==>
            t.aborted || (t.joined == |t.workers| && forall w | 0 <= w < |t.workers| :: t.workers[w] == Exited)
    decreases |steps|
  {
    if steps == [] {
      if !s.aborted && s.joined < |s.workers| { ShutdownProgress(s); }
    } else {
      if Internal(steps[0]) { WorkDrops(s, steps[0]); } else { OtherSteps(s, steps[0]); }
      InvStep(s, steps[0]);
      ShutdownTerminates(Next(s, steps[0]), steps[1..]);
    }
  }

  ghost predicate AllDone(s: State) { forall id | id in s.pushed :: id in s.jobs && IsDone(s.jobs[id].status) }

  // ---- the open queue is worked off ----

  /** Work in sight while the queue is open. */
  function Backlog(s: State): nat { 5 * |s.queue| + Ranks(s.workers) + 2 * s.notifies }

  function CountSpurious(steps: seq<Step>): nat {
    if steps == [] then 0 else (if steps[0].SpuriousWakeup? then 1 else 0) + CountSpurious(steps[1..])
  }

  lemma BacklogMove(s: State, t: State, w: nat, p: Phase, change: int)
    requires w < |s.workers| && t.workers == s.workers[w := p]
    requires 5 * |t.queue| + 2 * t.notifies + Rank(p) == 5 * |s.queue| + 2 * s.notifies + Rank(s.workers[w]) + change
    ensures Backlog(t) == Backlog(s) + change
  {
    RanksUpdate(s.workers, w, p);
  }

  /** Taking a job costs the queue more than it adds to the worker. */
  lemma {:induction false} BacklogTake(s: State, step: Step)
    requires Inv(s) && s.continue_ && Enabled(s, step) && (step.PopNoWait? || step.EnterWait? || step.Reacquire?)
    ensures Backlog(Next(s, step)) < Backlog(s)
  {
    var t := Next(s, step);
    var p := t.workers[step.w];
    BacklogMove(s, t, step.w, p, if step.PopNoWait? && s.queue != [] then -3 else -1);
  }

  lemma {:induction false} BacklogWork(s: State, step: Step)
    requires Inv(s) && s.continue_ && Enabled(s, step) && (step.Begin? || step.Finish? || step.Crash?)
    ensures Backlog(Next(s, step)) < Backlog(s)
  {
    var t := Next(s, step);
    BacklogMove(s, t, step.w, t.workers[step.w], if step.Crash? then -4 else -1);
  }

  /** While the queue is open each step of a worker or a notification reduces the backlog. */
  lemma {:induction false} BacklogDrops(s: State, step: Step)
    requires Inv(s) && s.continue_ && Enabled(s, step) && Internal(step)
    ensures Backlog(Next(s, step)) < Backlog(s)
  {
    match step
    case NotifyOne(w) => BacklogMove(s, Next(s, step), w, Woken, -1);
    case NotifyNobody =>
    case ReadContinue(w) => BacklogMove(s, Next(s, step), w, AtLock, -1);
    case PopNoWait(_) => BacklogTake(s, step);
    case EnterWait(_) => BacklogTake(s, step);
    case Reacquire(_) => BacklogTake(s, step);
    case Begin(_) => BacklogWork(s, step);
    case Finish(_, _, _) => BacklogWork(s, step);
    case Crash(_, _) => BacklogWork(s, step);
  }

  /** A push adds seven to it, a spurious wakeup one, the other steps nothing. */
  lemma {:induction false} BacklogGrows(s: State, step: Step)
    requires Inv(s) && s.continue_ && Enabled(s, step) && !Internal(step) && !step.Quit?
    ensures Backlog(Next(s, step)) == Backlog(s) + if step.Enqueue? then 7 else if step.SpuriousWakeup? then 1 else 0
  {
    if step.SpuriousWakeup? { BacklogMove(s, Next(s, step), step.w, Woken, 1); }
  }

  /** At rest on an open queue all workers sleep, the queue is empty and every pushed job is done. */
  lemma {:induction false} AtRest(s: State)
    requires Inv(s) && !s.aborted && s.continue_ && s.workers != []
    requires forall step | Internal(step) :: !Enabled(s, step)
    ensures (forall w | 0 <= w < |s.workers| :: s.workers[w] == Parked)
    ensures s.queue == [] && AllDone(s)
  {
    if s.queue != [] { QueuedJobMovesOn(s); }
    forall w | 0 <= w < |s.workers| ensures s.workers[w] == Parked {
      assert s.workers[w] in s.workers;
      if s.workers[w] != Parked { OwnStepEnabled(s, w); }
    }
    assert forall p: Phase | SomeWorker(s, p) :: p == Parked;
  }

  lemma StaysOpen(s: State, steps: seq<Step>)
    requires IsRun(s, steps) && steps != [] && Run(s, steps).continue_
    ensures s.continue_ && !steps[0].Quit? && |Next(s, steps[0]).workers| == |s.workers|
  {
    HistoryGrows(s, steps);
    HistoryGrows(Next(s, steps[0]), steps[1..]);
  }

  /** Every queued job is worked off: while the queue is open, workers and notifications take a
      number of steps bounded by the backlog, the pushes and the spurious wakeups, and they come to
      rest only when the queue is empty and every job ever pushed is done, or dead. */
  lemma {:induction false} QueueWorkedOff(s: State, steps: seq<Step>)
    requires Inv(s) && IsRun(s, steps) && Run(s, steps).continue_ && s.workers != []
    ensures CountInternal(steps) <= Backlog(s) + 7 * CountEnqueue(steps) + CountSpurious(steps)
    ensures var t := Run(s, steps);
            (forall step | Internal(step) :: !Enabled(t, step)) ==>
            t.aborted || (t.queue == [] && AllDone(t))
    decreases |steps|
  {
    if steps == [] {
      if !s.aborted && forall step | Internal(step) :: !Enabled(s, step) { AtRest(s); }
    } else {
      StaysOpen(s, steps);
      if Internal(steps[0]) { BacklogDrops(s, steps[0]); } else { BacklogGrows(s, steps[0]); }
      InvStep(s, steps[0]);
      QueueWorkedOff(Next(s, steps[0]), steps[1..]);
    }
  }

  // ---- after shutdown ----

  /** When all workers have left, no job is in process and each is done, queued or being added. */
  lemma AfterAllExited(s: State, id: Id)
    requires Inv(s) && (forall w | 0 <= w < |s.workers| :: s.workers[w] == Exited) && id in s.pushed
    ensures IsDone(s.jobs[id].status) || (id in s.queue && s.jobs[id].status == QUEUED)
    ensures id in s.popped <==> IsDone(s.jobs[id].status)
  {
    assert forall p: Phase | SomeWorker(s, p) :: p == Exited;
    assert id in s.pushed ==> id in s.popped + s.queue;
    if id in s.popped {
      var i :| 0 <= i < |s.popped| && s.popped[i] == id;
      assert s.pushed[i] == id;
      forall k | 0 <= k < |s.queue| ensures s.queue[k] != id { assert s.pushed[|s.popped| + k] == s.queue[k]; }
    }
  }

  // ---- when the queue drains ----

  /** A worker that will look into the queue once more without asking whether it is closed. */
  predicate Busy(p: Phase) { p == AtPop || p.Holding? || p.Working? }

  ghost predicate SomeBusy(s: State) { exists w | 0 <= w < |s.workers| :: Busy(s.workers[w]) }

  /** Nothing is left to drain, or somebody is there to do it. */
  ghost predicate Drainable(s: State) { s.queue == [] || SomeBusy(s) }

  /** After quit no step but a push or a crash decides the matter either way. */
  lemma {:induction false} DrainableKept(s: State, step: Step)
    requires Inv(s) && !s.continue_ && Enabled(s, step) && !step.Enqueue? && !Next(s, step).aborted
    ensures Drainable(Next(s, step)) <==> Drainable(s)
  {
    var t := Next(s, step);
    if step.Quit? {
      assert forall w | 0 <= w < |s.workers| :: s.workers[w] in s.workers;
    } else if |t.workers| == |s.workers| && step.PopNoWait? {
      if s.queue != [] { assert Busy(s.workers[step.w]) && Busy(t.workers[step.w]); }
    } else if step.Begin? || step.Finish? {
      assert Busy(s.workers[step.w]) && Busy(t.workers[step.w]);
    } else {
      assert forall w | 0 <= w < |s.workers| :: Busy(t.workers[w]) <==> Busy(s.workers[w]);
    }
  }

  lemma {:induction false} AbortedStays(s: State, steps: seq<Step>)
    requires IsRun(s, steps) && s.aborted
    ensures Run(s, steps).aborted
  {
  }

  /** When the queue drains, exactly: with no push after quit and no crash, when all workers have
      left the queue is empty, and every job ever pushed is done, if and only if at the time of quit
      it was empty already or some worker was before popNoWait or had a job in hand. */
  lemma {:induction false} QueueDrains(s: State, steps: seq<Step>)
    requires Inv(s) && !s.continue_ && IsRun(s, steps) && forall step | step in steps :: !step.Enqueue?
    requires var t := Run(s, steps);
             !t.aborted && forall w | 0 <= w < |t.workers| :: t.workers[w] == Exited
    ensures var t := Run(s, steps);
            && (t.queue == [] <==> s.queue == [] || SomeBusy(s))
            && (t.queue == [] <==> AllDone(t))
    decreases |steps|
  {
    if steps == [] {
      forall id | id in s.pushed ensures IsDone(s.jobs[id].status) <==> id !in s.queue { QueuedOrDone(s, id); }
      if s.queue != [] { assert s.queue[0] in s.popped + s.queue; }
    } else {
      var t := Next(s, steps[0]);
      if t.aborted { AbortedStays(t, steps[1..]); }
      DrainableKept(s, steps[0]);
      InvStep(s, steps[0]);
      QueueDrains(t, steps[1..]);
    }
  }

  lemma QueuedOrDone(s: State, id: Id)
    requires Inv(s) && (forall w | 0 <= w < |s.workers| :: s.workers[w] == Exited) && id in s.pushed
    ensures IsDone(s.jobs[id].status) <==> id !in s.queue
  {
    AfterAllExited(s, id);
  }

  /** An instance: a worker that finds the queue closed leaves, and a job pushed
      just before stays queued for good. */
  lemma {:induction false} QueueNeedNotDrain()
    ensures exists steps: seq<Step> ::
              IsRun(Init(1), steps) &&
              var t := Run(Init(1), steps);
              t.queue == [7] && t.workers == [Exited] && t.joined == 1 && 7 !in t.popped
  {
    var steps := [PopNoWait(0), AddJob(7), Enqueue(7), Quit, ReadContinue(0), Join];
    assert Init(1).workers == [AtPop];
    RunFront(Init(1), steps);
    var s1 := LeftBehind(AtCheck, map[], {}, [], true, 0);
    assert Next(Init(1), steps[0]) == s1;
    RunFront(s1, steps[1..]);
    LeftBehindSteps(steps[1..]);
  }

  /** The states after the worker has looked into the empty queue. */
  function LeftBehind(p: Phase, jobs: map<Id, Job>, adding: set<Id>, queue: seq<Id>, open: bool, joined: nat): State {
    State([p], queue, open, |queue|, jobs, jobs.Keys, adding, queue, [], joined, false)
  }

  lemma {:induction false} LeftBehindSteps(steps: seq<Step>)
    requires steps == [AddJob(7), Enqueue(7), Quit, ReadContinue(0), Join]
    ensures var s := LeftBehind(AtCheck, map[], {}, [], true, 0);
            IsRun(s, steps) &&
            var t := Run(s, steps);
            t.queue == [7] && t.workers == [Exited] && t.joined == 1 && t.popped == []
  {
    var jobs := map[7 := Job(QUEUED, 0)];
    var s := LeftBehind(AtCheck, map[], {}, [], true, 0);
    var s2 := LeftBehind(AtCheck, jobs, {7}, [], true, 0);
    var s3 := LeftBehind(AtCheck, jobs, {}, [7], true, 0);
    var s4 := LeftBehind(AtCheck, jobs, {}, [7], false, 0);
    var s5 := LeftBehind(Exited, jobs, {}, [7], false, 0);
    var s6 := LeftBehind(Exited, jobs, {}, [7], false, 1);
    assert Next(s, steps[0]) == s2;
    assert Next(s2, steps[1]) == s3;
    assert Next(s3, steps[2]) == s4;
    assert Next(s4, steps[3]) == s5;
    assert Next(s5, steps[4]) == s6;
    RunFront(s5, steps[4..]);
    RunFront(s4, steps[3..]);
    RunFront(s3, steps[2..]);
    RunFront(s2, steps[1..]);
    RunFront(s, steps);
  }

  lemma {:induction false} RunFront(s: State, steps: seq<Step>)
    requires steps != [] && Enabled(s, steps[0])
    ensures IsRun(s, steps) <==> IsRun(Next(s, steps[0]), steps[1..])
    ensures IsRun(s, steps) ==> Run(s, steps) == Run(Next(s, steps[0]), steps[1..])
  {
  }
}
