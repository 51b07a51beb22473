/** The job queue shared by request handlers, worker threads, the cleanup thread and shutdown
    (src/server/quitablequeue.h, jobstorage.cpp, worker.cpp Worker::run, broker.cpp) as a
    transition system. One step is one critical section, one unlocked read or one notification;
    steps of all threads interleave freely. */
module JobProtocol {

  type Id = nat

  datatype Status = QUEUED | IN_PROCESS | FINISHED | FAILED

  predicate IsDone(s: Status) { s == FINISHED || s == FAILED }

  datatype Job = Job(status: Status, timeFinished: int)

  /** setStatus as one step. */
  function SetStatus(j: Job, s: Status, now: int): Job {
    Job(s, if IsDone(s) then now else j.timeFinished)
  }

  /** Where a worker thread is. */
  datatype Phase =
    | AtPop                 // before popNoWait
    | AtCheck               // in popWait, before the unlocked test of continue_
    | AtLock                // before taking the mutex in popWait
    | Parked                // waiting on the condition variable
    | Woken                 // notified, before it has the mutex again
    | Holding(job: Id)      // popped a job, status not yet changed
    | Working(job: Id)      // processing it
    | Exited                // left the run loop

  datatype State = State(
    workers: seq<Phase>,
    queue: seq<Id>,
    continue_: bool,
    notifies: nat,          // pushes that have unlocked but not yet called notify_one
    jobs: map<Id, Job>,     // every job object ever created
    jobMap: set<Id>,        // the ids JobStorage can still look up
    adding: set<Id>,        // in the map, not yet in the queue
    pushed: seq<Id>,        // history: enqueued, in order
    popped: seq<Id>,        // history: dequeued, in order
    joined: nat,            // worker threads Broker::stop has joined
    aborted: bool           // an unexpected exception ended the process
  )

  datatype Step =
    | AddJob(id: Id)                     // JobStorage::addJob
    | Enqueue(id: Id)                    // QuitableQueue::push up to unlock
    | NotifyOne(w: nat)                  // notify_one wakes w
    | NotifyNobody                       // notify_one with nobody waiting
    | SpuriousWakeup(w: nat)
    | PopNoWait(w: nat)
    | ReadContinue(w: nat)
    | EnterWait(w: nat)                  // first evaluation of the wait loop under the mutex
    | Reacquire(w: nat)                  // the same after a wakeup
    | Begin(w: nat)                      // setStatus(IN_PROCESS)
    | Finish(w: nat, ok: bool, now: int) // pull or removeByAttributes returned or threw a handled error
    | Crash(w: nat, now: int)            // an error that is rethrown
    | Quit
    | Join
    | Cleanup(now: int, maxAge: nat)

  function Init(n: nat): State {
    State(seq(n, _ => AtPop), [], true, 0, map[], {}, {}, [], [], 0, false)
  }

  predicate HasWorker(s: State, w: nat, p: Phase) { w < |s.workers| && s.workers[w] == p }

  predicate Enabled(s: State, step: Step) {
    && !s.aborted
    && match step
       case AddJob(id) => id !in s.jobs                       // ids are fresh UUIDs
       case Enqueue(id) => id in s.adding
       case NotifyOne(w) => s.notifies > 0 && HasWorker(s, w, Parked)
       case NotifyNobody => s.notifies > 0 && Parked !in s.workers
       case SpuriousWakeup(w) => HasWorker(s, w, Parked)
       case PopNoWait(w) => HasWorker(s, w, AtPop)
       case ReadContinue(w) => HasWorker(s, w, AtCheck)
       case EnterWait(w) => HasWorker(s, w, AtLock)
       case Reacquire(w) => HasWorker(s, w, Woken)
       case Begin(w) => w < |s.workers| && s.workers[w].Holding? && s.workers[w].job in s.jobs
       case Finish(w, _, _) => w < |s.workers| && s.workers[w].Working? && s.workers[w].job in s.jobs
       case Crash(w, _) => w < |s.workers| && s.workers[w].Working? && s.workers[w].job in s.jobs
       case Quit => true
       case Join => !s.continue_ && s.joined < |s.workers| && s.workers[s.joined] == Exited
       case Cleanup(_, _) => true
  }

  /** The head of the queue goes to worker w. */
  function Dequeue(s: State, w: nat): State
    requires w < |s.workers| && s.queue != []
  {
    s.(queue := s.queue[1..], popped := s.popped + [s.queue[0]],
       workers := s.workers[w := Holding(s.queue[0])])
  }

  /** One evaluation of the loop in popWait, with the mutex held. */
  function WaitLoop(s: State, w: nat): State
    requires w < |s.workers|
  {
    if !s.continue_ then s.(workers := s.workers[w := Exited])
    else if s.queue == [] then s.(workers := s.workers[w := Parked])
    else Dequeue(s, w)
  }

  function WakeAll(ws: seq<Phase>): (r: seq<Phase>)
    ensures |r| == |ws|
    ensures forall i | 0 <= i < |ws| :: r[i] == if ws[i] == Parked then Woken else ws[i]
  {
    seq(|ws|, i requires 0 <= i < |ws| => if ws[i] == Parked then Woken else ws[i])
  }

  /** What the cleanup thread removes. */
  predicate Expired(j: Job, now: int, maxAge: nat) { IsDone(j.status) && j.timeFinished < now - maxAge }

  function WithStatus(s: State, id: Id, status: Status, now: int): State
    requires id in s.jobs
  {
    s.(jobs := s.jobs[id := SetStatus(s.jobs[id], status, now)])
  }

  function Next(s: State, step: Step): State
    requires Enabled(s, step)
  {
    match step
    case AddJob(id) =>
      s.(jobs := s.jobs[id := Job(QUEUED, 0)], jobMap := s.jobMap + {id}, adding := s.adding + {id})
    case Enqueue(id) =>
      s.(queue := s.queue + [id], pushed := s.pushed + [id], adding := s.adding - {id},
         notifies := s.notifies + 1)
    case NotifyOne(w) => s.(notifies := s.notifies - 1, workers := s.workers[w := Woken])
    case NotifyNobody => s.(notifies := s.notifies - 1)
    case SpuriousWakeup(w) => s.(workers := s.workers[w := Woken])
    case PopNoWait(w) =>
      if s.queue == [] then s.(workers := s.workers[w := AtCheck]) else Dequeue(s, w)
    case ReadContinue(w) =>
      s.(workers := s.workers[w := if s.continue_ then AtLock else Exited])
    case EnterWait(w) => WaitLoop(s, w)
    case Reacquire(w) => WaitLoop(s, w)
    case Begin(w) =>
      var id := s.workers[w].job;
      WithStatus(s, id, IN_PROCESS, 0).(workers := s.workers[w := Working(id)])
    case Finish(w, ok, now) =>
      var id := s.workers[w].job;
      WithStatus(s, id, if ok then FINISHED else FAILED, now).(workers := s.workers[w := AtPop])
    case Crash(w, now) =>
      var id := s.workers[w].job;
      WithStatus(s, id, FAILED, now).(workers := s.workers[w := Exited], aborted := true)
    case Quit => s.(continue_ := false, workers := WakeAll(s.workers))
    case Join => s.(joined := s.joined + 1)
    case Cleanup(now, maxAge) =>
      s.(jobMap := set id | id in s.jobMap && !(id in s.jobs && Expired(s.jobs[id], now, maxAge)))
  }

  // ---- runs ----

  predicate IsRun(s: State, steps: seq<Step>)
    decreases |steps|
  {
    steps == [] || (Enabled(s, steps[0]) && IsRun(Next(s, steps[0]), steps[1..]))
  }

  function Run(s: State, steps: seq<Step>): State
    requires IsRun(s, steps)
    decreases |steps|
  {
    if steps == [] then s else Run(Next(s, steps[0]), steps[1..])
  }
}
