/** Which jobs the execution actor takes, where each one is afterwards, and what becomes of
    unordered ones. No assumption on nonces or replies. */
module ExecJobs {
  import opened Api
  import opened ExecSpec

  // ---- One message, one finished task ----

  /** A job with a result to come or at hand, whose turn has not passed if it is ordered. */
  predicate Taken<P(==)>(x: Exec<P>, job: Job<P>) {
    (job.state == Pending || job.state == Done) && (job.ordered ==> job.nonce >= x.next)
  }

  /** A job sent to the actor becomes pending and gets a task exactly if it is taken. */
  lemma {:induction false} SubmittedTells<P>(x: Exec<P>, job: Job<P>)
    ensures var y := Step(x, Submitted(job));
      && y.next == x.next && y.completed == x.completed && y.sent == x.sent
      && y.pending == x.pending + (if Taken(x, job) then {job.nonce} else {})
      && y.inFlight == x.inFlight + (if Taken(x, job) then multiset{job} else multiset{})
  {
    assert x.inFlight + multiset{} == x.inFlight && x.pending + {} == x.pending;
  }

  /** An unordered job that is pending or done is taken whatever its nonce, and handed over
      the moment it has been executed. A job in any other state changes nothing. */
  lemma {:induction false} UnorderedTaken<P>(x: Exec<P>, job: Job<P>)
    requires !job.ordered
    ensures var y := Step(x, Submitted(job));
      && (job.state == Neither ==> y == x)
      && (job.state != Neither ==>
            job.nonce in y.pending && job in y.inFlight && y.inFlight[job] == x.inFlight[job] + 1)
    ensures job in x.inFlight ==>
      Step(x, Finished(job, Executed)) == x.(inFlight := x.inFlight - multiset{job}, sent := x.sent + [job])
  {
  }

  /** An executed ordered job whose turn it is not replaces what the buffer has under its
      nonce; a failed one stops being pending; one without reply only loses its task. */
  lemma {:induction false} FinishedTells<P>(x: Exec<P>, job: Job<P>)
    ensures var y := Step(x, Finished(job, Executed));
      job.ordered ==>
        if job.nonce == x.next then x.sent + [job] <= y.sent
        else y.completed == x.completed[job.nonce := job] && y.sent == x.sent && y.next == x.next
    ensures Step(x, Finished(job, Failed))
         == x.(inFlight := x.inFlight - multiset{job}, pending := x.pending - {job.nonce})
    ensures Step(x, Finished(job, Lost)) == x.(inFlight := x.inFlight - multiset{job})
  {
  }

  // ---- Every job is somewhere ----

  ghost function TakenBy<P>(x: Exec<P>, e: Event<P>): multiset<Job<P>> {
    if e.Submitted? && Taken(x, e.job) then multiset{e.job} else multiset{}
  }

  // Jobs whose task brought no result.
  ghost function EndedBy<P>(e: Event<P>): multiset<Job<P>> {
    if e.Finished? && e.reply != Executed then multiset{e.job} else multiset{}
  }

  // The buffered job that one finishing under the same nonce replaces.
  ghost function ReplacedBy<P>(x: Exec<P>, e: Event<P>): multiset<Job<P>> {
    if e.Finished? && e.reply == Executed && e.job.ordered && e.job.nonce != x.next && e.job.nonce in x.completed
    then multiset{x.completed[e.job.nonce]}
    else multiset{}
  }

  ghost function TakenIn<P>(start: U64, events: seq<Event<P>>): multiset<Job<P>> {
    if events == [] then multiset{}
    else
      var before := events[..|events| - 1];
      TakenIn(start, before) + TakenBy(After(start, before), events[|events| - 1])
  }

  ghost function EndedIn<P>(events: seq<Event<P>>): multiset<Job<P>> {
    if events == [] then multiset{} else EndedIn(events[..|events| - 1]) + EndedBy(events[|events| - 1])
  }

  ghost function ReplacedIn<P>(start: U64, events: seq<Event<P>>): multiset<Job<P>> {
    if events == [] then multiset{}
    else
      var before := events[..|events| - 1];
      ReplacedIn(start, before) + ReplacedBy(After(start, before), events[|events| - 1])
  }

  ghost function BufferedAs<P>(completed: map<U64, Job<P>>, job: Job<P>): nat {
    if job.nonce in completed.Keys && completed[job.nonce] == job then 1 else 0
  }

  // The buffer holds ordered jobs under their nonces.
  ghost predicate BufferOk<P>(completed: map<U64, Job<P>>) {
    forall n :: n in completed.Keys ==> completed[n].ordered && completed[n].nonce == n
  }

  /** How often a job is in flight, buffered or handed over. */
  ghost function Somewhere<P>(x: Exec<P>, job: Job<P>): nat {
    x.inFlight[job] + BufferedAs(x.completed, job) + multiset(x.sent)[job]
  }

  lemma CountAppend<P>(xs: seq<Job<P>>, ys: seq<Job<P>>, job: Job<P>)
    ensures multiset(xs + ys)[job] == multiset(xs)[job] + multiset(ys)[job]
  {
  }

  // Draining moves jobs from the buffer to those handed over.
  lemma {:induction false} DrainCounts<P>(next: U64, completed: map<U64, Job<P>>, job: Job<P>)
    requires BufferOk(completed)
    ensures BufferOk(DrainRest(next, completed))
    ensures multiset(DrainJobs(next, completed))[job] + BufferedAs(DrainRest(next, completed), job)
         == BufferedAs(completed, job)
    decreases completed.Keys
  {
    if next in completed {
      DrainCounts(Add64(next, 1), completed - {next}, job);
      CountAppend([completed[next]], DrainJobs(Add64(next, 1), completed - {next}), job);
    }
  }

  lemma {:induction false} ExecutesCounts<P>(x: Exec<P>, job: Job<P>, other: Job<P>)
    requires BufferOk(x.completed)
    ensures var y := Executes(x, job);
      && BufferOk(y.completed) && y.inFlight == x.inFlight
      && Somewhere(y, other) + ReplacedBy(x, Finished(job, Executed))[other]
         == Somewhere(x, other) + multiset{job}[other]
  {
    CountAppend(x.sent, [job], other);
    if job.ordered && job.nonce == x.next {
      var next := Add64(x.next, 1);
      DrainCounts(next, x.completed, other);
      CountAppend(x.sent + [job], DrainJobs(next, x.completed), other);
    }
  }

  lemma {:induction false} StepCounts<P>(x: Exec<P>, e: Event<P>, job: Job<P>)
    requires BufferOk(x.completed) && Enabled(x, e)
    ensures var y := Step(x, e);
      && BufferOk(y.completed)
      && Somewhere(y, job) + EndedBy(e)[job] + ReplacedBy(x, e)[job] == Somewhere(x, job) + TakenBy(x, e)[job]
  {
    hide Executes, BufferedAs, BufferOk;
    match e
    case Submitted(other) =>
      SubmittedTells(x, other);
    case Finished(other, reply) =>
      if reply == Executed {
        ExecutesCounts(x.(inFlight := x.inFlight - multiset{other}), other, job);
      }
    case Relayed(_) =>
  }

  lemma {:induction false} BufferAlways<P>(start: U64, events: seq<Event<P>>)
    requires Reachable(start, events)
    ensures BufferOk(After(start, events).completed)
  {
    hide Step, Enabled, BufferOk;
    if events != [] {
      var n := |events| - 1;
      BufferAlways(start, events[..n]);
      StepBuffer(After(start, events[..n]), events[n]);
    } else {
      EmptyBuffer<P>();
    }
  }

  lemma StepBuffer<P>(x: Exec<P>, e: Event<P>)
    requires BufferOk(x.completed) && Enabled(x, e)
    ensures BufferOk(Step(x, e).completed)
  {
    hide Accept, Finish, BufferOk;
    if !e.Relayed? {
      StepCounts(x, e, e.job);
    }
  }

  lemma EmptyBuffer<P>()
    ensures BufferOk<P>(map[])
  {
  }

  /** In every run, each time a job was taken it is in flight, buffered, handed over, ended
      without a result, or was replaced in the buffer: exactly one of these, with its payload. */
  lemma {:induction false} JobsConserved<P>(start: U64, events: seq<Event<P>>, job: Job<P>)
    requires Reachable(start, events)
    ensures var x := After(start, events);
      TakenIn(start, events)[job]
        == x.inFlight[job] + BufferedAs(x.completed, job) + multiset(x.sent)[job]
             + EndedIn(events)[job] + ReplacedIn(start, events)[job]
  {
    hide Step, Enabled, BufferOk, BufferedAs, TakenBy, EndedBy, ReplacedBy;
    if events != [] {
      var n := |events| - 1;
      JobsConserved(start, events[..n], job);
      BufferAlways(start, events[..n]);
      StepCounts(After(start, events[..n]), events[n], job);
    } else {
      NothingBuffered(job);
    }
  }

  lemma NothingBuffered<P>(job: Job<P>)
    ensures BufferedAs(map[], job) == 0
  {
  }

  // ---- Unordered jobs are handed over as they finish ----

  function Unordered<P>(jobs: seq<Job<P>>): seq<Job<P>> {
    if jobs == [] then []
    else Unordered(jobs[..|jobs| - 1]) + if jobs[|jobs| - 1].ordered then [] else [jobs[|jobs| - 1]]
  }

  /** The unordered jobs executed in a run, as they finish. */
  function UnorderedDone<P>(events: seq<Event<P>>): seq<Job<P>> {
    if events == [] then []
    else
      var last := events[|events| - 1];
      UnorderedDone(events[..|events| - 1])
        + if last.Finished? && last.reply == Executed && !last.job.ordered then [last.job] else []
  }

  lemma {:induction false} UnorderedAppend<P>(xs: seq<Job<P>>, ys: seq<Job<P>>)
    ensures Unordered(xs + ys) == Unordered(xs) + Unordered(ys)
  {
    if ys == [] {
      assert xs + ys == xs;
    } else {
      var n := |ys| - 1;
      UnorderedAppend(xs, ys[..n]);
      assert (xs + ys)[..|xs + ys| - 1] == xs + ys[..n];
    }
  }

  lemma {:induction false} DrainOrdered<P>(next: U64, completed: map<U64, Job<P>>)
    requires BufferOk(completed)
    ensures Unordered(DrainJobs(next, completed)) == []
    decreases completed.Keys
  {
    if next in completed {
      DrainOrdered(Add64(next, 1), completed - {next});
      UnorderedAppend([completed[next]], DrainJobs(Add64(next, 1), completed - {next}));
      assert Unordered([completed[next]]) == [];
    }
  }

  lemma {:induction false} StepUnordered<P>(x: Exec<P>, e: Event<P>)
    requires BufferOk(x.completed)
    ensures Unordered(Step(x, e).sent)
         == Unordered(x.sent) + if e.Finished? && e.reply == Executed && !e.job.ordered then [e.job] else []
  {
    hide BufferOk, DrainJobs, DrainRest, DrainNext;
    if e.Finished? && e.reply == Executed {
      var job := e.job;
      UnorderedAppend(x.sent, [job]);
      assert Unordered([job]) == if job.ordered then [] else [job];
      if job.ordered && job.nonce == x.next {
        var next := Add64(x.next, 1);
        DrainOrdered(next, x.completed);
        UnorderedAppend(x.sent + [job], DrainJobs(next, x.completed));
      }
    }
  }

  /** In every run the unordered jobs handed over are those executed, in the order in which
      their tasks finished; the reorder buffer holds none of them back. */
  lemma {:induction false} UnorderedAtOnce<P>(start: U64, events: seq<Event<P>>)
    requires Reachable(start, events)
    ensures Unordered(After(start, events).sent) == UnorderedDone(events)
  {
    hide Step, Enabled, BufferOk;
    if events != [] {
      var n := |events| - 1;
      UnorderedAtOnce(start, events[..n]);
      BufferAlways(start, events[..n]);
      StepUnordered(After(start, events[..n]), events[n]);
    }
  }
}
