/** The shared objects themselves: QuitableQueue (src/server/quitablequeue.h), Job status
    (src/server/job.h) and JobStorage (src/server/jobstorage.cpp). Each method is one critical
    section; the interleavings are in JobProtocol. */
module JobStorage {
  import opened JobProtocol

  /** What one turn of the loop in popWait comes to while the mutex is held. */
  datatype Turn = Closed | MustWait | Item(id: Id)

  class QuitableQueue {
    var queue: seq<Id>
    var continue_: bool

    constructor ()
      ensures queue == [] && continue_
    {
      queue, continue_ := [], true;
    }

    /** One evaluation of the wait condition and what follows it; the abstract step is WaitLoop. */
    method PopWaitTurn() returns (t: Turn)
      modifies this`queue
      ensures forall s: State, w: nat | w < |s.workers| && s.queue == old(queue) && s.continue_ == continue_ ::
                WaitLoop(s, w).queue == queue &&
                WaitLoop(s, w).workers[w] == match t case Closed => Exited
                                                     case MustWait => Parked
                                                     case Item(id) => Holding(id)
    {
      if continue_ && queue == [] { return MustWait; }
      if !continue_ { return Closed; }
      t := Item(queue[0]);
      queue := queue[1..];
    }

    /** The abstract step is PopNoWait. */
    method PopNoWait() returns (t: Turn)
      modifies this`queue
      ensures forall s: State, w: nat | Enabled(s, Step.PopNoWait(w)) && s.queue == old(queue) ::
                Next(s, Step.PopNoWait(w)).queue == queue &&
                Next(s, Step.PopNoWait(w)).workers[w] == if t.Item? then Holding(t.id) else AtCheck
      ensures old(queue) == [] ==> t == MustWait && queue == []
      ensures old(queue) != [] ==> t.Item? && [t.id] + queue == old(queue)
    {
      t := MustWait;
      if queue != [] {
        t := Item(queue[0]);
        queue := queue[1..];
      }
    }

    method Quit()
      modifies this`continue_
      ensures !continue_
      ensures forall s: State | Enabled(s, Step.Quit) && s.queue == queue ::
                Next(s, Step.Quit).queue == queue && Next(s, Step.Quit).continue_ == continue_
    {
      continue_ := false;
    }

    method Push(id: Id)
      modifies this`queue
      ensures queue == old(queue) + [id]
      ensures forall s: State | Enabled(s, Enqueue(id)) && s.queue == old(queue) ::
                Next(s, Enqueue(id)).queue == queue && id in Next(s, Enqueue(id)).pushed
    {
      queue := queue + [id];
    }
  }

  class JobObject {
    const id: Id
    var job: Job

    constructor (id: Id)
      ensures this.id == id && job == Job(QUEUED, 0)
    {
      this.id, job := id, Job(QUEUED, 0);
    }

    method SetStatus(s: Status, now: int)
      modifies this
      ensures job.status == s
      ensures job.timeFinished == if IsDone(s) then now else old(job.timeFinished)
      ensures job == JobProtocol.SetStatus(old(job), s, now)
    {
      job := job.(status := s);
      if IsDone(job.status) { job := job.(timeFinished := now); }
    }
  }

  datatype JobStats = JobStats(queued: nat, failed: nat, inProcess: nat, finished: nat)

  /** The stored jobs with a given status. */
  ghost function WithThat(m: map<Id, JobObject>, keys: set<Id>, s: Status): set<Id>
    requires keys <= m.Keys
    reads m.Values
  {
    set id | id in keys && m[id].job.status == s
  }

  class JobStorage {
    var jobMap: map<Id, JobObject>

    constructor ()
      ensures jobMap == map[]
    {
      jobMap := map[];
    }

    method AddJob(j: JobObject)
      modifies this
      ensures jobMap == old(jobMap)[j.id := j]
    {
      jobMap := jobMap[j.id := j];
    }

    method RemoveJob(id: Id)
      modifies this
      ensures jobMap == old(jobMap) - {id}
    {
      jobMap := jobMap - {id};
    }

    /** One pass of the cleanup thread, erasing while it iterates: exactly the expired jobs go. */
    method Cleanup(now: int, maxAge: nat) returns (numRemovedJobs: nat)
      modifies this
      ensures jobMap == map id | id in old(jobMap) && !Expired(old(jobMap)[id].job, now, maxAge) :: old(jobMap)[id]
      ensures numRemovedJobs == |old(jobMap)| - |jobMap|
      ensures forall s: State |
                Enabled(s, Step.Cleanup(now, maxAge)) && s.jobMap == old(jobMap).Keys
                && (forall id | id in old(jobMap) :: id in s.jobs && s.jobs[id] == old(jobMap[id].job)) ::
                Next(s, Step.Cleanup(now, maxAge)).jobMap == jobMap.Keys
    {
      var minTime := now - maxAge;
      var rest := jobMap.Keys;
      numRemovedJobs := 0;
      while rest != {}
        invariant rest <= jobMap.Keys <= old(jobMap).Keys
        invariant forall id | id in jobMap :: jobMap[id] == old(jobMap)[id]
        invariant forall id | id in old(jobMap) && id !in rest ::
                    id in jobMap <==> !Expired(old(jobMap)[id].job, now, maxAge)
        invariant |jobMap| + numRemovedJobs == |old(jobMap)|
        decreases rest
      {
        var it :| it in rest;
        var job := jobMap[it].job;
        if IsDone(job.status) {
          if job.timeFinished < minTime {
            ghost var before := jobMap;
            jobMap := jobMap - {it};
            assert before.Keys == jobMap.Keys + {it};
            assert |before.Keys| == |jobMap.Keys| + 1;
            numRemovedJobs := numRemovedJobs + 1;
          }
        }
        rest := rest - {it};
      }
    }

    /** The counting loop of getStats: each counter is the number of jobs with its status, and
        together they are all stored jobs. */
    method GetStats() returns (r: JobStats)
      ensures r.queued == |WithThat(jobMap, jobMap.Keys, QUEUED)|
      ensures r.failed == |WithThat(jobMap, jobMap.Keys, FAILED)|
      ensures r.inProcess == |WithThat(jobMap, jobMap.Keys, IN_PROCESS)|
      ensures r.finished == |WithThat(jobMap, jobMap.Keys, FINISHED)|
      ensures r.queued + r.failed + r.inProcess + r.finished == |jobMap|
    {
      r := JobStats(0, 0, 0, 0);
      var rest := jobMap.Keys;
      ghost var done: set<Id> := {};
      while rest != {}
        invariant done + rest == jobMap.Keys && done !! rest
        invariant r.queued == |WithThat(jobMap, done, QUEUED)|
        invariant r.failed == |WithThat(jobMap, done, FAILED)|
        invariant r.inProcess == |WithThat(jobMap, done, IN_PROCESS)|
        invariant r.finished == |WithThat(jobMap, done, FINISHED)|
        invariant r.queued + r.failed + r.inProcess + r.finished == |done|
        decreases rest
      {
        var id :| id in rest;
        CountOne(jobMap, done, id);
        match jobMap[id].job.status {
          case FAILED => r := r.(failed := r.failed + 1);
          case IN_PROCESS => r := r.(inProcess := r.inProcess + 1);
          case FINISHED => r := r.(finished := r.finished + 1);
          case QUEUED => r := r.(queued := r.queued + 1);
        }
        done, rest := done + {id}, rest - {id};
      }
      assert done == jobMap.Keys;
    }
  }

  lemma CountOne(m: map<Id, JobObject>, done: set<Id>, id: Id)
    requires done <= m.Keys && id in m && id !in done
    ensures forall s: Status :: |WithThat(m, done + {id}, s)|
                             == |WithThat(m, done, s)| + if m[id].job.status == s then 1 else 0
  {
    forall s: Status
      ensures |WithThat(m, done + {id}, s)| == |WithThat(m, done, s)| + if m[id].job.status == s then 1 else 0
    {
      if m[id].job.status == s {
        assert WithThat(m, done + {id}, s) == WithThat(m, done, s) + {id};
      } else {
        assert WithThat(m, done + {id}, s) == WithThat(m, done, s);
      }
    }
  }
}
