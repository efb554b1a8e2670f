/** The execution actor's loop, updating its state in place. */
module ExecActor {
  import opened Api
  import opened ExecSpec

  class ExecutionActor<P(==)> {
    var nextJobToSubmit: U64
    var completedTasks: map<U64, Job<P>>
    var pendingJobs: set<U64>
    var joinSet: multiset<Job<P>>
    var relayTx: seq<Job<P>>

    ghost function View(): Exec<P>
      reads this
    {
      Exec(nextJobToSubmit, completedTasks, pendingJobs, joinSet, relayTx)
    }

    constructor (nonce: U64)
      ensures View() == Start(nonce)
    {
      nextJobToSubmit, completedTasks, pendingJobs, joinSet, relayTx := nonce, map[], {}, multiset{}, [];
    }

    method HandleExec(job: Job<P>)
      modifies this
      ensures View() == Accept(old(View()), job)
    {
      if (job.state != Pending && job.state != Done) || (job.ordered && job.nonce < nextJobToSubmit) {
        return;
      }
      pendingJobs := pendingJobs + {job.nonce};
      joinSet := joinSet + multiset{job};
    }

    method HandleRelayed(nonce: U64)
      modifies this
      ensures View() == Ack(old(View()), nonce)
    {
      pendingJobs := pendingJobs - {nonce};
    }

    // One `join_next` of a task in flight.
    method HandleCompleted(job: Job<P>, reply: Reply)
      modifies this
      ensures View() == Finish(old(View()), job, reply)
    {
      joinSet := joinSet - multiset{job};
      match reply
      case Executed =>
        if !job.ordered {
          relayTx := relayTx + [job];
          return;
        }
        if job.nonce == nextJobToSubmit {
          relayTx := relayTx + [job];
          nextJobToSubmit := Add64(nextJobToSubmit, 1);
          RelayCompleted();
        } else {
          completedTasks := completedTasks[job.nonce := job];
        }
      case Failed =>
        pendingJobs := pendingJobs - {job.nonce};
      case Lost =>
    }

    // Relay any directly subsequent jobs that have been completed.
    method RelayCompleted()
      modifies `nextJobToSubmit, `completedTasks, `relayTx
      ensures nextJobToSubmit == DrainNext(old(nextJobToSubmit), old(completedTasks))
      ensures completedTasks == DrainRest(old(nextJobToSubmit), old(completedTasks))
      ensures relayTx == old(relayTx) + DrainJobs(old(nextJobToSubmit), old(completedTasks))
    {
      while nextJobToSubmit in completedTasks
        invariant DrainNext(nextJobToSubmit, completedTasks) == DrainNext(old(nextJobToSubmit), old(completedTasks))
        invariant DrainRest(nextJobToSubmit, completedTasks) == DrainRest(old(nextJobToSubmit), old(completedTasks))
        invariant relayTx + DrainJobs(nextJobToSubmit, completedTasks)
               == old(relayTx) + DrainJobs(old(nextJobToSubmit), old(completedTasks))
        decreases completedTasks.Keys
      {
        var job := completedTasks[nextJobToSubmit];
        completedTasks := completedTasks - {nextJobToSubmit};
        relayTx := relayTx + [job];
        nextJobToSubmit := Add64(nextJobToSubmit, 1);
      }
    }
  }
}
