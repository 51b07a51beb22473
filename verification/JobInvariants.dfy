/** What every interleaving of the job protocol keeps. */
module JobInvariants {
  import opened JobProtocol

  ghost predicate Distinct(ids: seq<Id>) {
    forall i, j | 0 <= i < j < |ids| :: ids[i] != ids[j]
  }

  /** Conservation and FIFO: what was dequeued, followed by what is queued, is what was pushed. */
  ghost predicate Order(s: State) {
    && s.popped + s.queue == s.pushed
    && Distinct(s.pushed)
    && (forall id | id in s.pushed :: id in s.jobs && id !in s.adding)
    && s.adding <= s.jobs.Keys
    && (forall id | id in s.jobs :: id in s.adding || id in s.pushed)
  }

  predicate Holds(p: Phase, id: Id) { (p.Holding? || p.Working?) && p.job == id }

  /** A dequeued job is with exactly one worker until it is done; a waiting one with nobody. */
  ghost predicate Ownership(s: State) {
    && (forall w | 0 <= w < |s.workers| ::
          (s.workers[w].Holding? || s.workers[w].Working?) ==> s.workers[w].job in s.popped)
    && (forall v, w | 0 <= v < w < |s.workers| ::
          (s.workers[v].Holding? || s.workers[v].Working?) ==> !Holds(s.workers[w], s.workers[v].job))
  }

  predicate SomeWorker(s: State, p: Phase) { p in s.workers }

  /** The status of a job says where it is. */
  ghost predicate StatusOf(s: State) {
    && (forall id | id in s.jobs && s.jobs[id].status == QUEUED ::
          id in s.adding || id in s.queue || SomeWorker(s, Holding(id)))
    && (forall id | id in s.jobs && s.jobs[id].status == IN_PROCESS :: SomeWorker(s, Working(id)))
    && (forall id | id in s.jobs && (id in s.adding || id in s.queue) :: s.jobs[id].status == QUEUED)
    && (forall w | 0 <= w < |s.workers| && s.workers[w].Holding? ::
          s.workers[w].job in s.jobs && s.jobs[s.workers[w].job].status == QUEUED)
    && (forall w | 0 <= w < |s.workers| && s.workers[w].Working? ::
          s.workers[w].job in s.jobs && s.jobs[s.workers[w].job].status == IN_PROCESS)
  }

  /** Storage: the cleanup never takes away a job that is not done. */
  ghost predicate Storage(s: State) {
    && s.jobMap <= s.jobs.Keys
    && forall id | id in s.jobs && !IsDone(s.jobs[id].status) :: id in s.jobMap
  }

  function CountWoken(ws: seq<Phase>): nat {
    if ws == [] then 0 else (if ws[0] == Woken then 1 else 0) + CountWoken(ws[1..])
  }

  /** No lost wakeup: while somebody sleeps, every queued job has a woken worker or a pending
      notification to answer for it. After quit nobody sleeps. */
  ghost predicate Wakeup(s: State) {
    && (Parked in s.workers ==> |s.queue| <= CountWoken(s.workers) + s.notifies)
    && (!s.continue_ ==> Parked !in s.workers)
  }

  ghost predicate Shutdown(s: State) {
    && (!s.aborted && Exited in s.workers ==> !s.continue_)
    && s.joined <= |s.workers|
    && forall w | 0 <= w < s.joined :: s.workers[w] == Exited
  }

  ghost predicate Inv(s: State) {
    Order(s) && Ownership(s) && StatusOf(s) && Storage(s) && Wakeup(s) && Shutdown(s)
  }

  lemma {:induction false} InitInv(n: nat)
    ensures Inv(Init(n))
  {
  }

  // ---- counting ----

  lemma {:induction false} CountUpdate(ws: seq<Phase>, w: nat, p: Phase)
    requires w < |ws|
    ensures CountWoken(ws[w := p])
         == CountWoken(ws) - (if ws[w] == Woken then 1 else 0) + (if p == Woken then 1 else 0)
  {
    if w == 0 {
      assert ws[w := p][1..] == ws[1..];
    } else {
      assert ws[w := p][1..] == ws[1..][w - 1 := p];
      CountUpdate(ws[1..], w - 1, p);
    }
  }

  lemma {:induction false} CountZero(ws: seq<Phase>)
    ensures CountWoken(ws) == 0 <==> Woken !in ws
  {
    if ws != [] {
      CountZero(ws[1..]);
      assert ws == [ws[0]] + ws[1..];
    }
  }

  // ---- preservation, one group at a time ----

  lemma {:induction false} OrderStep(s: State, step: Step)
    requires Inv(s) && Enabled(s, step)
    ensures Order(Next(s, step))
  {
    var t := Next(s, step);
    match step
    case Enqueue(id) =>
      assert t.popped + t.queue == s.popped + s.queue + [id];
    case PopNoWait(w) => if s.queue != [] { DequeueOrder(s, w); }
    case EnterWait(w) => if s.continue_ && s.queue != [] { DequeueOrder(s, w); }
    case Reacquire(w) => if s.continue_ && s.queue != [] { DequeueOrder(s, w); }
    case _ =>
  }

  lemma DequeueOrder(s: State, w: nat)
    requires Order(s) && w < |s.workers| && s.queue != []
    ensures Order(Dequeue(s, w))
  {
    assert s.queue == [s.queue[0]] + s.queue[1..];
    assert s.popped + s.queue == (s.popped + [s.queue[0]]) + s.queue[1..];
  }

  /** The head of the queue is with nobody. */
  lemma HeadIsFree(s: State)
    requires Order(s) && Ownership(s) && s.queue != []
    ensures s.queue[0] !in s.popped
    ensures forall w | 0 <= w < |s.workers| :: !Holds(s.workers[w], s.queue[0])
  {
    var k := |s.popped|;
    assert s.pushed[k] == s.queue[0];
    forall i | 0 <= i < k ensures s.popped[i] != s.queue[0] { assert s.pushed[i] == s.popped[i]; }
  }

  lemma OwnershipDequeue(s: State, w: nat)
    requires Order(s) && Ownership(s) && w < |s.workers| && s.queue != []
    ensures Ownership(Dequeue(s, w))
  {
    HeadIsFree(s);
  }

  /** A worker that takes up no job leaves the ownership as it was. */
  lemma OwnershipMove(s: State, t: State, w: nat, p: Phase)
    requires Ownership(s) && w < |s.workers| && t.workers == s.workers[w := p] && t.popped == s.popped
    requires p.Holding? || p.Working? ==> Holds(s.workers[w], p.job)
    ensures Ownership(t)
  {
  }

  lemma {:induction false} OwnershipStep(s: State, step: Step)
    requires Inv(s) && Enabled(s, step)
    ensures Ownership(Next(s, step))
  {
    var t := Next(s, step);
    match step
    case NotifyOne(w) => OwnershipMove(s, t, w, Woken);
    case SpuriousWakeup(w) => OwnershipMove(s, t, w, Woken);
    case PopNoWait(w) =>
      if s.queue != [] { OwnershipDequeue(s, w); } else { OwnershipMove(s, t, w, AtCheck); }
    case ReadContinue(w) => OwnershipMove(s, t, w, t.workers[w]);
    case EnterWait(w) => OwnershipWait(s, w);
    case Reacquire(w) => OwnershipWait(s, w);
    case Begin(w) => OwnershipMove(s, t, w, t.workers[w]);
    case Finish(w, _, _) => OwnershipMove(s, t, w, AtPop);
    case Crash(w, _) => OwnershipMove(s, t, w, Exited);
    case _ =>
  }

  lemma OwnershipWait(s: State, w: nat)
    requires Order(s) && Ownership(s) && w < |s.workers|
    ensures Ownership(WaitLoop(s, w))
  {
    if s.continue_ && s.queue != [] {
      OwnershipDequeue(s, w);
    } else {
      OwnershipMove(s, WaitLoop(s, w), w, WaitLoop(s, w).workers[w]);
    }
  }

  lemma StorageStep(s: State, step: Step)
    requires Inv(s) && Enabled(s, step)
    ensures Storage(Next(s, step))
  {
  }

  lemma {:induction false} ShutdownStep(s: State, step: Step)
    requires Inv(s) && Enabled(s, step)
    ensures Shutdown(Next(s, step))
  {
  }

  lemma {:induction false} WakeupStep(s: State, step: Step)
    requires Inv(s) && Enabled(s, step)
    ensures Wakeup(Next(s, step))
  {
    var t := Next(s, step);
    match step
    case NotifyOne(w) => CountUpdate(s.workers, w, Woken);
    case SpuriousWakeup(w) => CountUpdate(s.workers, w, Woken);
    case PopNoWait(w) => CountUpdate(s.workers, w, t.workers[w]);
    case ReadContinue(w) => CountUpdate(s.workers, w, t.workers[w]);
    case EnterWait(w) => CountUpdate(s.workers, w, t.workers[w]);
    case Reacquire(w) => CountUpdate(s.workers, w, t.workers[w]);
    case Begin(w) => CountUpdate(s.workers, w, t.workers[w]);
    case Finish(w, _, _) => CountUpdate(s.workers, w, t.workers[w]);
    case Crash(w, _) => CountUpdate(s.workers, w, t.workers[w]);
    case _ =>
  }

  // ---- status ----

  lemma StatusDequeue(s: State, w: nat)
    requires Order(s) && Ownership(s) && StatusOf(s) && w < |s.workers| && s.queue != []
    requires !s.workers[w].Holding? && !s.workers[w].Working?
    ensures StatusOf(Dequeue(s, w))
  {
    var t := Dequeue(s, w);
    var head := s.queue[0];
    assert s.pushed[|s.popped|] == head;
    assert t.workers[w] == Holding(head);
    forall p: Phase | SomeWorker(s, p) && (p.Holding? || p.Working?)
      ensures SomeWorker(t, p)
    {
      KeepMember(s.workers, w, Holding(head), p);
    }
    forall id | id in s.queue && id != head ensures id in t.queue {
      var i :| 0 <= i < |s.queue| && s.queue[i] == id;
      assert t.queue[i - 1] == id;
    }
  }

  lemma KeepMember(ws: seq<Phase>, w: nat, p: Phase, q: Phase)
    requires w < |ws| && q in ws && q != ws[w]
    ensures q in ws[w := p]
  {
    var i :| 0 <= i < |ws| && ws[i] == q;
    assert ws[w := p][i] == q;
  }

  /** A worker without a job stays without one: no status is concerned. */
  lemma StatusMove(s: State, t: State, w: nat, p: Phase)
    requires StatusOf(s) && w < |s.workers| && t.workers == s.workers[w := p]
    requires t.jobs == s.jobs && t.adding == s.adding && t.queue == s.queue
    requires !s.workers[w].Holding? && !s.workers[w].Working? && !p.Holding? && !p.Working?
    ensures StatusOf(t)
  {
    forall q: Phase | SomeWorker(s, q) && (q.Holding? || q.Working?)
      ensures SomeWorker(t, q)
    {
      KeepMember(s.workers, w, p, q);
    }
  }

  lemma StatusWait(s: State, w: nat)
    requires Order(s) && Ownership(s) && StatusOf(s) && w < |s.workers|
    requires !s.workers[w].Holding? && !s.workers[w].Working?
    ensures StatusOf(WaitLoop(s, w))
  {
    if s.continue_ && s.queue != [] {
      StatusDequeue(s, w);
    } else {
      StatusMove(s, WaitLoop(s, w), w, WaitLoop(s, w).workers[w]);
    }
  }

  /** Everybody else's job is another one and stays with them. */
  lemma OthersKept(s: State, w: nat, p: Phase)
    requires Ownership(s) && w < |s.workers| && (s.workers[w].Holding? || s.workers[w].Working?)
    ensures forall q: Phase | q in s.workers && (q.Holding? || q.Working?) && q.job != s.workers[w].job ::
              q in s.workers[w := p]
    ensures forall v | 0 <= v < |s.workers| && v != w :: !Holds(s.workers[v], s.workers[w].job)
  {
    forall q: Phase | q in s.workers && (q.Holding? || q.Working?) && q.job != s.workers[w].job
      ensures q in s.workers[w := p]
    {
      KeepMember(s.workers, w, p, q);
    }
    SoleOwner(s, w);
  }

  /** The worker that has a job starts it. */
  lemma StatusBegin(s: State, w: nat)
    requires Order(s) && Ownership(s) && StatusOf(s) && w < |s.workers| && s.workers[w].Holding?
    ensures var id := s.workers[w].job;
            StatusOf(WithStatus(s, id, IN_PROCESS, 0).(workers := s.workers[w := Working(id)]))
  {
    var p := Working(s.workers[w].job);
    OthersKept(s, w, p);
    NotWaiting(s, w);
    assert s.workers[w := p][w] == p;
  }

  /** The worker that has a job is done with it. */
  lemma StatusDone(s: State, w: nat, status: Status, now: int, p: Phase)
    requires Order(s) && Ownership(s) && StatusOf(s) && w < |s.workers| && s.workers[w].Working?
    requires IsDone(status) && !p.Holding? && !p.Working?
    ensures StatusOf(WithStatus(s, s.workers[w].job, status, now).(workers := s.workers[w := p]))
  {
    OthersKept(s, w, p);
    NotWaiting(s, w);
  }

  lemma SoleOwner(s: State, w: nat)
    requires Ownership(s) && w < |s.workers| && (s.workers[w].Holding? || s.workers[w].Working?)
    ensures forall v | 0 <= v < |s.workers| && v != w :: !Holds(s.workers[v], s.workers[w].job)
  {
    forall v | 0 <= v < |s.workers| && v != w ensures !Holds(s.workers[v], s.workers[w].job) {
      if v < w && (s.workers[v].Holding? || s.workers[v].Working?) {
        assert !Holds(s.workers[w], s.workers[v].job);
      }
    }
  }

  /** A job in a worker's hands is neither queued nor being added. */
  lemma NotWaiting(s: State, w: nat)
    requires Order(s) && Ownership(s) && w < |s.workers| && (s.workers[w].Holding? || s.workers[w].Working?)
    ensures s.workers[w].job !in s.queue && s.workers[w].job !in s.adding
  {
    var id := s.workers[w].job;
    var i :| 0 <= i < |s.popped| && s.popped[i] == id;
    assert s.pushed[i] == id;
    forall k | 0 <= k < |s.queue| ensures s.queue[k] != id { assert s.pushed[|s.popped| + k] == s.queue[k]; }
  }

  lemma {:induction false} StatusStep(s: State, step: Step)
    requires Inv(s) && Enabled(s, step)
    ensures StatusOf(Next(s, step))
  {
    var t := Next(s, step);
    match step
    case AddJob(id) => StatusAdd(s, id);
    case Enqueue(id) => StatusEnqueue(s, id);
    case NotifyOne(w) => StatusMove(s, t, w, Woken);
    case NotifyNobody => SameWorkers(s, t);
    case SpuriousWakeup(w) => StatusMove(s, t, w, Woken);
    case PopNoWait(w) =>
      if s.queue != [] { StatusDequeue(s, w); } else { StatusMove(s, t, w, AtCheck); }
    case ReadContinue(w) => StatusMove(s, t, w, t.workers[w]);
    case EnterWait(w) => StatusWait(s, w);
    case Reacquire(w) => StatusWait(s, w);
    case Begin(w) => StatusBegin(s, w);
    case Finish(w, ok, now) => StatusDone(s, w, if ok then FINISHED else FAILED, now, AtPop);
    case Crash(w, now) => StatusDone(s, w, FAILED, now, Exited);
    case Quit => StatusQuit(s);
    case Join => SameWorkers(s, t);
    case Cleanup(_, _) => SameWorkers(s, t);
  }

  lemma SameWorkers(s: State, t: State)
    requires StatusOf(s) && t.workers == s.workers && t.jobs == s.jobs && t.adding == s.adding && t.queue == s.queue
    ensures StatusOf(t)
  {
    forall p | SomeWorker(s, p) ensures SomeWorker(t, p) {}
  }

  lemma StatusAdd(s: State, id: Id)
    requires Inv(s) && Enabled(s, AddJob(id))
    ensures StatusOf(Next(s, AddJob(id)))
  {
    var t := Next(s, AddJob(id));
    forall p | SomeWorker(s, p) ensures SomeWorker(t, p) {}
  }

  lemma StatusEnqueue(s: State, id: Id)
    requires Inv(s) && Enabled(s, Enqueue(id))
    ensures StatusOf(Next(s, Enqueue(id)))
  {
    var t := Next(s, Enqueue(id));
    forall p | SomeWorker(s, p) ensures SomeWorker(t, p) {}
  }

  lemma StatusQuit(s: State)
    requires Inv(s) && Enabled(s, Quit)
    ensures StatusOf(Next(s, Quit))
  {
    var t := Next(s, Quit);
    forall p: Phase | SomeWorker(s, p) && p != Parked
      ensures SomeWorker(t, p)
    {
      var i :| 0 <= i < |s.workers| && s.workers[i] == p;
      assert t.workers[i] == p;
    }
  }

  // ---- whole runs ----

  lemma InvStep(s: State, step: Step)
    requires Inv(s) && Enabled(s, step)
    ensures Inv(Next(s, step))
  {
    OrderStep(s, step);
    OwnershipStep(s, step);
    StatusStep(s, step);
    StorageStep(s, step);
    WakeupStep(s, step);
    ShutdownStep(s, step);
  }

  /** Every state of every interleaving satisfies the invariant. */
  lemma {:induction false} InvRun(s: State, steps: seq<Step>)
    requires Inv(s) && IsRun(s, steps)
    ensures Inv(Run(s, steps))
    decreases |steps|
  {
    if steps != [] {
      InvStep(s, steps[0]);
      InvRun(Next(s, steps[0]), steps[1..]);
    }
  }
}
