/** The execution actor and its relay actor together: a channel of executed jobs one way,
    acknowledgements the other, ordered relays one at a time and unordered ones beside it. */
module RelaySpec {
  import opened Api
  import opened ExecSpec
  import opened Retry

  // A job being relayed, and the number of its next attempt.
  datatype Relaying<P> = Relaying(job: Job<P>, i: U32)

  datatype LogEntry<P> =
    | Attempted(job: Job<P>, ok: bool)
    | Acknowledged(job: Job<P>)
    | DeadLettered(job: Job<P>)

  datatype System<P(==)> = System(
    exec: Exec<P>,
    taken: nat,                          // how many of exec.sent the relay actor has received
    current: Option<Relaying<P>>,        // the ordered relay it waits for
    background: multiset<Relaying<P>>,   // unordered relays it spawned
    acks: seq<U64>,                      // acknowledgements on their way to the execution actor
    log: seq<LogEntry<P>>)

  function Init<P(==)>(start: U64): System<P> {
    System(Start(start), 0, None, multiset{}, [], [])
  }

  datatype SysEvent<P> =
    | Exec(event: Event<P>)              // a submission or a finished task
    | Deliver                            // the next acknowledgement reaches the execution actor
    | Take                               // the relay actor receives its next job
    | Try(ok: bool)                      // an attempt of the ordered relay
    | TryUnordered(relaying: Relaying<P>, ok: bool)

  ghost predicate CanHappen<P>(s: System<P>, e: SysEvent<P>) {
    match e
    case Exec(event) => !event.Relayed? && Enabled(s.exec, event)
    case Deliver => s.acks != []
    case Take => s.taken < |s.exec.sent| && s.current.None?
    case Try(_) => s.current.Some?
    case TryUnordered(relaying, _) => relaying in s.background
  }

  ghost function TakeJob<P>(s: System<P>): System<P>
    requires s.taken < |s.exec.sent|
  {
    var job := s.exec.sent[s.taken];
    if job.ordered then s.(taken := s.taken + 1, current := Some(Relaying(job, 1)))
    else s.(taken := s.taken + 1, background := s.background + multiset{Relaying(job, 1)})
  }

  // What an attempt adds to the log and to the acknowledgements.

  function LogOf<P>(r: Relaying<P>, maxRetries: U32, ok: bool): seq<LogEntry<P>> {
    match Judge(r.i, maxRetries, ok)
    case Included => [Attempted(r.job, ok), Acknowledged(r.job)]
    case GivenUp => [Attempted(r.job, ok), DeadLettered(r.job)]
    case Again(_) => [Attempted(r.job, ok)]
  }

  function AcksOf<P>(r: Relaying<P>, maxRetries: U32, ok: bool): seq<U64> {
    if Judge(r.i, maxRetries, ok).Included? then [r.job.nonce] else []
  }

  ghost function TryCurrent<P>(s: System<P>, maxRetries: U32, ok: bool): System<P>
    requires s.current.Some?
  {
    var r := s.current.value;
    var v := Judge(r.i, maxRetries, ok);
    s.(current := if v.Again? then Some(Relaying(r.job, v.i)) else None,
       acks := s.acks + AcksOf(r, maxRetries, ok), log := s.log + LogOf(r, maxRetries, ok))
  }

  ghost function TryBackground<P>(s: System<P>, maxRetries: U32, r: Relaying<P>, ok: bool): System<P> {
    var v := Judge(r.i, maxRetries, ok);
    var others := s.background - multiset{r};
    s.(background := if v.Again? then others + multiset{Relaying(r.job, v.i)} else others,
       acks := s.acks + AcksOf(r, maxRetries, ok), log := s.log + LogOf(r, maxRetries, ok))
  }

  ghost function SysStep<P>(s: System<P>, maxRetries: U32, e: SysEvent<P>): System<P>
    requires CanHappen(s, e)
  {
    match e
    case Exec(event) => s.(exec := Step(s.exec, event))
    case Deliver => s.(exec := Ack(s.exec, s.acks[0]), acks := s.acks[1..])
    case Take => TakeJob(s)
    case Try(ok) => TryCurrent(s, maxRetries, ok)
    case TryUnordered(relaying, ok) => TryBackground(s, maxRetries, relaying, ok)
  }

  ghost function SysAfter<P>(start: U64, maxRetries: U32, events: seq<SysEvent<P>>): System<P> {
    if events == [] then Init(start)
    else
      var before, e := SysAfter(start, maxRetries, events[..|events| - 1]), events[|events| - 1];
      if CanHappen(before, e) then SysStep(before, maxRetries, e) else before
  }

  /** Runs of the two actors, in any interleaving of messages, completions and attempts. */
  ghost predicate CanRun<P>(start: U64, maxRetries: U32, events: seq<SysEvent<P>>) {
    events == [] ||
    var before := events[..|events| - 1];
    CanRun(start, maxRetries, before) && CanHappen(SysAfter(start, maxRetries, before), events[|events| - 1])
  }
}
