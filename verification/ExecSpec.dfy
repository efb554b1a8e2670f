/** The execution actor of one consumer: jobs finish in any order and are handed to the
    relay actor by nonce. */
module ExecSpec {
  import opened Api

  datatype JobState = Pending | Done | Neither

  datatype Job<P> = Job(nonce: U64, ordered: bool, state: JobState, payload: P)

  // How the task of a job ends: executed, failed, or without any reply from the pool.
  datatype Reply = Executed | Failed | Lost

  datatype Exec<P(==)> = Exec(
    next: U64,                    // next_job_to_submit
    completed: map<U64, Job<P>>,  // completed_tasks
    pending: set<U64>,            // pending_jobs
    inFlight: multiset<Job<P>>,   // join_set
    sent: seq<Job<P>>)            // everything sent to the relay actor so far

  function Start<P(==)>(nonce: U64): Exec<P> {
    Exec(nonce, map[], {}, multiset{}, [])
  }

  // ---- Transitions ----

  predicate Accepts<P(==)>(x: Exec<P>, job: Job<P>) {
    job.state != Neither && !(job.ordered && job.nonce < x.next)
  }

  function Accept<P(==)>(x: Exec<P>, job: Job<P>): Exec<P> {
    if Accepts(x, job) then x.(pending := x.pending + {job.nonce}, inFlight := x.inFlight + multiset{job}) else x
  }

  function Ack<P(==)>(x: Exec<P>, nonce: U64): Exec<P> {
    x.(pending := x.pending - {nonce})
  }

  // Relaying the directly subsequent completed jobs.

  function DrainNext<P(==)>(next: U64, completed: map<U64, Job<P>>): U64
    decreases completed.Keys
  {
    if next in completed then DrainNext(Add64(next, 1), completed - {next}) else next
  }

  function DrainRest<P(==)>(next: U64, completed: map<U64, Job<P>>): map<U64, Job<P>>
    decreases completed.Keys
  {
    if next in completed then DrainRest(Add64(next, 1), completed - {next}) else completed
  }

  function DrainJobs<P(==)>(next: U64, completed: map<U64, Job<P>>): seq<Job<P>>
    decreases completed.Keys
  {
    if next in completed then [completed[next]] + DrainJobs(Add64(next, 1), completed - {next}) else []
  }

  function Executes<P(==)>(x: Exec<P>, job: Job<P>): Exec<P> {
    if !job.ordered then x.(sent := x.sent + [job])
    else if job.nonce == x.next then
      var next := Add64(x.next, 1);
      x.(next := DrainNext(next, x.completed), completed := DrainRest(next, x.completed),
         sent := x.sent + [job] + DrainJobs(next, x.completed))
    else x.(completed := x.completed[job.nonce := job])
  }

  function Finish<P(==)>(x: Exec<P>, job: Job<P>, reply: Reply): Exec<P> {
    var y := x.(inFlight := x.inFlight - multiset{job});
    match reply
    case Executed => Executes(y, job)
    case Failed => y.(pending := y.pending - {job.nonce})
    case Lost => y
  }

  datatype Event<P> = Submitted(job: Job<P>) | Finished(job: Job<P>, reply: Reply) | Relayed(nonce: U64)

  ghost function Step<P>(x: Exec<P>, e: Event<P>): Exec<P> {
    match e
    case Submitted(job) => Accept(x, job)
    case Finished(job, reply) => Finish(x, job, reply)
    case Relayed(nonce) => Ack(x, nonce)
  }

  lemma SentGrows<P>(x: Exec<P>, e: Event<P>)
    ensures x.sent <= Step(x, e).sent
  {
  }

  // Only tasks in flight can finish.
  ghost predicate Enabled<P>(x: Exec<P>, e: Event<P>) {
    e.Finished? ==> e.job in x.inFlight
  }

  ghost function After<P>(start: U64, events: seq<Event<P>>): Exec<P> {
    if events == [] then Start(start)
    else Step(After(start, events[..|events| - 1]), events[|events| - 1])
  }

  /** Events in any interleaving: messages come when they like, tasks finish in any order. */
  ghost predicate Reachable<P>(start: U64, events: seq<Event<P>>) {
    events == [] ||
    var before := events[..|events| - 1];
    Reachable(start, before) && Enabled(After(start, before), events[|events| - 1])
  }

  lemma OneMore<P>(start: U64, events: seq<Event<P>>, e: Event<P>)
    requires Reachable(start, events) && Enabled(After(start, events), e)
    ensures Reachable(start, events + [e]) && After(start, events + [e]) == Step(After(start, events), e)
  {
    assert (events + [e])[..|events|] == events;
  }
}
