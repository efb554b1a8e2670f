/** Every job the relay actor receives, ordered or not: how often it is tried, and how it
    ends. Everything here holds for all interleavings and without assumptions on nonces. */
module RelayJobs {
  import opened Api
  import opened ExecSpec
  import opened Retry
  import opened RelaySpec
  import opened RelayOrder

  // ---- One step ----

  /** A job just received is at its first attempt, awaited if it is ordered, beside the
      others if not. */
  lemma {:induction false} TakeTells<P>(s: System<P>, maxRetries: U32)
    requires CanHappen(s, Take)
    ensures var t, job := SysStep(s, maxRetries, Take), s.exec.sent[s.taken];
      && t.taken == s.taken + 1 && t.exec == s.exec && t.acks == s.acks && t.log == s.log
      && (job.ordered ==> t.current == Some(Relaying(job, 1)) && t.background == s.background)
      && (!job.ordered ==> t.current == s.current && t.background == s.background + multiset{Relaying(job, 1)})
  {
  }

  // ---- Unordered attempts are the retry loop as well ----

  /** Attempt after attempt of one unordered relay, for as long as it goes on. */
  ghost function TryAllBeside<P>(s: System<P>, maxRetries: U32, r: Relaying<P>, results: seq<bool>): System<P>
    decreases |results|
  {
    if results == [] then s
    else
      var t, v := TryBackground(s, maxRetries, r, results[0]), Judge(r.i, maxRetries, results[0]);
      if v.Again? then TryAllBeside(t, maxRetries, Relaying(r.job, v.i), results[1..]) else t
  }

  // From s to t the relay r was tried, and nothing else happened.
  ghost predicate BesideDone<P>(s: System<P>, t: System<P>, r: Relaying<P>, verdict: Verdict, tried: seq<LogEntry<P>>)
  {
    var others := s.background - multiset{r};
    && t.exec == s.exec && t.taken == s.taken && t.current == s.current
    && match verdict
       case Again(i) =>
         t.background == others + multiset{Relaying(r.job, i)} && t.acks == s.acks && t.log == s.log + tried
       case Included =>
         && t.background == others && t.acks == s.acks + [r.job.nonce]
         && t.log == s.log + tried + [Acknowledged(r.job)]
       case GivenUp => t.background == others && t.acks == s.acks && t.log == s.log + tried + [DeadLettered(r.job)]
  }

  lemma BesideStep<P>(s: System<P>, maxRetries: U32, r: Relaying<P>, ok: bool)
    requires r in s.background
    ensures BesideDone(s, TryBackground(s, maxRetries, r, ok), r, Judge(r.i, maxRetries, ok), [Attempted(r.job, ok)])
  {
    hide Judge;
  }

  lemma OutAgain<T>(m: multiset<T>, x: T)
    ensures m + multiset{x} - multiset{x} == m
  {
  }

  lemma Joined<T>(a: seq<T>, b: seq<T>, c: seq<T>)
    ensures a + b + c == a + (b + c)
  {
  }

  lemma BesideThen<P>(s: System<P>, u: System<P>, t: System<P>, r: Relaying<P>, i: U32, verdict: Verdict,
                      one: seq<LogEntry<P>>, more: seq<LogEntry<P>>)
    requires r in s.background && BesideDone(s, u, r, Again(i), one)
    requires BesideDone(u, t, Relaying(r.job, i), verdict, more)
    ensures BesideDone(s, t, r, verdict, one + more)
  {
    OutAgain(s.background - multiset{r}, Relaying(r.job, i));
    Joined(s.log, one, more);
  }

  /** The counterpart of `TriesAreRelay`: an unordered job stays beside the others while the
      retry loop goes on, is acknowledged exactly if it gets included, and else is left to
      the dead letter queue; the relay the actor waits for is not touched. */
  lemma {:induction false} BesideIsRelay<P>(s: System<P>, maxRetries: U32, r: Relaying<P>, results: seq<bool>)
    requires r in s.background
    requires |results| == Relay(r.i, maxRetries, results).attempts
    ensures BesideDone(s, TryAllBeside(s, maxRetries, r, results), r, Relay(r.i, maxRetries, results).verdict,
                       AttemptsLog(r.job, results))
    decreases |results|
  {
    hide Judge, TryBackground, BesideDone;
    if results == [] {
      NotTried(s, r);
    } else {
      var v, one := Judge(r.i, maxRetries, results[0]), [Attempted(r.job, results[0])];
      BesideStep(s, maxRetries, r, results[0]);
      if v.Again? {
        var u, next := TryBackground(s, maxRetries, r, results[0]), Relaying(r.job, v.i);
        StillBeside(s, u, r, v.i, one);
        BesideIsRelay(u, maxRetries, next, results[1..]);
        BesideThen(s, u, TryAllBeside(u, maxRetries, next, results[1..]), r, v.i,
                   Relay(v.i, maxRetries, results[1..]).verdict, one, AttemptsLog(r.job, results[1..]));
      } else {
        assert results[1..] == [];
        assert AttemptsLog(r.job, results) == one;
      }
    }
  }

  lemma NotTried<P>(s: System<P>, r: Relaying<P>)
    requires r in s.background
    ensures BesideDone(s, s, r, Again(r.i), [])
  {
    assert s.background - multiset{r} + multiset{r} == s.background;
  }

  lemma StillBeside<P>(s: System<P>, u: System<P>, r: Relaying<P>, i: U32, tried: seq<LogEntry<P>>)
    requires BesideDone(s, u, r, Again(i), tried)
    ensures Relaying(r.job, i) in u.background
  {
  }

  // ---- Attempts over a run ----

  // The attempt of this event, if it is one.
  ghost function TryOf<P>(s: System<P>, e: SysEvent<P>): Option<(Relaying<P>, bool)> {
    match e
    case Try(ok) => if s.current.Some? then Some((s.current.value, ok)) else None
    case TryUnordered(r, ok) => Some((r, ok))
    case Exec(_) => None
    case Deliver => None
    case Take => None
  }

  /** How often attempt number r.i of r.job had the result ok. */
  ghost function Tried<P>(start: U64, maxRetries: U32, events: seq<SysEvent<P>>, r: Relaying<P>, ok: bool): nat {
    if events == [] then 0
    else
      var before := events[..|events| - 1];
      Tried(start, maxRetries, before, r, ok)
        + if TryOf(SysAfter(start, maxRetries, before), events[|events| - 1]) == Some((r, ok)) then 1 else 0
  }

  /** How often the relay actor has received a job. */
  ghost function ReceivedTimes<P>(s: System<P>, job: Job<P>): nat
    requires s.taken <= |s.exec.sent|
  {
    multiset(s.exec.sent[..s.taken])[job]
  }

  /** How many relays of a job are waiting for their attempt number r.i. */
  ghost function InPlay<P>(s: System<P>, r: Relaying<P>): nat {
    s.background[r] + if s.current == Some(r) then 1 else 0
  }

  // The number of the attempt before, in 32 bits.
  function Previous(i: U32): U32 { (i - 1) % TWO32 }

  // Where a relay waiting for r.i comes from: just received, or from a failed attempt.
  ghost function Arrivals<P>(s: System<P>, maxRetries: U32, r: Relaying<P>, failed: nat): nat
    requires s.taken <= |s.exec.sent|
  {
    (if r.i == 1 then ReceivedTimes(s, r.job) else 0) + if Previous(r.i) <= RetryLimit(maxRetries) then failed else 0
  }

  lemma {:induction false} TakenBound<P>(start: U64, maxRetries: U32, events: seq<SysEvent<P>>)
    requires CanRun(start, maxRetries, events)
    ensures var s := SysAfter(start, maxRetries, events); s.taken <= |s.exec.sent|
  {
    hide Step, Judge;
    if events != [] {
      var n := |events| - 1;
      TakenBound(start, maxRetries, events[..n]);
      StepBound(SysAfter(start, maxRetries, events[..n]), maxRetries, events[n]);
    }
  }

  // What a step leaves of the jobs handed over and received.
  lemma StepBound<P>(s: System<P>, maxRetries: U32, e: SysEvent<P>)
    requires CanHappen(s, e) && s.taken <= |s.exec.sent|
    ensures var t := SysStep(s, maxRetries, e);
      && t.taken <= |t.exec.sent|
      && (!e.Take? ==> t.taken == s.taken && t.exec.sent[..t.taken] == s.exec.sent[..s.taken])
      && (e.Take? ==> t.exec.sent[..t.taken] == s.exec.sent[..s.taken] + [s.exec.sent[s.taken]])
  {
    hide Step, Judge, LogOf, AcksOf;
    if e.Exec? {
      SentGrows(s.exec, e.event);
    }
  }

  lemma ReceivedStep<P>(s: System<P>, maxRetries: U32, e: SysEvent<P>, job: Job<P>)
    requires CanHappen(s, e) && s.taken <= |s.exec.sent|
    ensures var t := SysStep(s, maxRetries, e);
      && t.taken <= |t.exec.sent|
      && ReceivedTimes(t, job)
         == ReceivedTimes(s, job) + if e.Take? && s.exec.sent[s.taken] == job then 1 else 0
  {
    hide SysStep;
    StepBound(s, maxRetries, e);
  }

  // The relay that an attempt leaves behind, if any: the next number while that is allowed.
  ghost function LeftBehind<P>(maxRetries: U32, r: Relaying<P>, ok: bool): multiset<Relaying<P>> {
    if !ok && r.i <= RetryLimit(maxRetries) then multiset{Relaying(r.job, Add32(r.i, 1))} else multiset{}
  }

  lemma JudgeLeaves<P>(r: Relaying<P>, maxRetries: U32, ok: bool)
    ensures var v := Judge(r.i, maxRetries, ok);
      LeftBehind(maxRetries, r, ok) == if v.Again? then multiset{Relaying(r.job, v.i)} else multiset{}
  {
  }

  lemma PlayStep<P>(s: System<P>, maxRetries: U32, e: SysEvent<P>, r: Relaying<P>)
    requires CanHappen(s, e)
    ensures var t, try := SysStep(s, maxRetries, e), TryOf(s, e);
      InPlay(t, r) + (if try.Some? && try.value.0 == r then 1 else 0)
        == InPlay(s, r)
             + (if e.Take? && r == Relaying(s.exec.sent[s.taken], 1) then 1 else 0)
             + (if try.Some? then LeftBehind(maxRetries, try.value.0, try.value.1)[r] else 0)
  {
    hide Step, Judge, LogOf, AcksOf, LeftBehind;
    var try := TryOf(s, e);
    if try.Some? {
      JudgeLeaves(try.value.0, maxRetries, try.value.1);
    }
  }

  // One more failed attempt before r's is one more arrival, if another may follow.
  lemma LeftIs<P>(maxRetries: U32, tried: Relaying<P>, ok: bool, r: Relaying<P>)
    ensures LeftBehind(maxRetries, tried, ok)[r]
         == if tried == Relaying(r.job, Previous(r.i)) && !ok && Previous(r.i) <= RetryLimit(maxRetries) then 1 else 0
  {
  }

  lemma TriedStep<P>(start: U64, maxRetries: U32, events: seq<SysEvent<P>>, r: Relaying<P>, ok: bool)
    requires events != []
    ensures var before := events[..|events| - 1];
      Tried(start, maxRetries, events, r, ok)
        == Tried(start, maxRetries, before, r, ok)
             + if TryOf(SysAfter(start, maxRetries, before), events[|events| - 1]) == Some((r, ok)) then 1 else 0
  {
  }

  /** In every run, a relay waits for attempt number i, or has made it, exactly as often as
      its job was received, if i is 1, plus as often as attempt i - 1 failed, if i - 1 is at
      most the maximum plus one. So no relay is dropped and none is tried too often. */
  lemma {:induction false} AttemptsFlow<P>(start: U64, maxRetries: U32, events: seq<SysEvent<P>>, r: Relaying<P>)
    requires CanRun(start, maxRetries, events)
    ensures var s := SysAfter(start, maxRetries, events);
      && s.taken <= |s.exec.sent|
      && InPlay(s, r) + Tried(start, maxRetries, events, r, true) + Tried(start, maxRetries, events, r, false)
         == Arrivals(s, maxRetries, r, Tried(start, maxRetries, events, Relaying(r.job, Previous(r.i)), false))
  {
    hide CanHappen, SysStep, TryOf, InPlay, ReceivedTimes, Tried, LeftBehind, Previous, RetryLimit;
    if events == [] {
      InitPlay(start, r);
      NeverTried<P>(start, maxRetries);
    } else {
      var n, previous := |events| - 1, Relaying(r.job, Previous(r.i));
      var s, e := SysAfter(start, maxRetries, events[..n]), events[n];
      AttemptsFlow(start, maxRetries, events[..n], r);
      PlayStep(s, maxRetries, e, r);
      ReceivedStep(s, maxRetries, e, r.job);
      TriedStep(start, maxRetries, events, r, true);
      TriedStep(start, maxRetries, events, r, false);
      TriedStep(start, maxRetries, events, previous, false);
      var try := TryOf(s, e);
      if try.Some? {
        LeftIs(maxRetries, try.value.0, try.value.1, r);
      }
    }
  }

  lemma NeverTried<P>(start: U64, maxRetries: U32)
    ensures forall r: Relaying<P>, ok :: Tried(start, maxRetries, [], r, ok) == 0
  {
  }

  lemma InitPlay<P>(start: U64, r: Relaying<P>)
    ensures InPlay(Init(start), r) == 0 && ReceivedTimes(Init(start), r.job) == 0
  {
  }

  // ---- How relays end ----

  /** How many relays of a job are beside the others. */
  ghost function Beside<P>(background: multiset<Relaying<P>>, job: Job<P>): nat {
    if background == multiset{} then 0
    else
      var r :| r in background;
      (if r.job == job then 1 else 0) + Beside(background - multiset{r}, job)
  }

  lemma OutBoth<T>(m: multiset<T>, x: T, y: T)
    ensures m - multiset{x} - multiset{y} == m - multiset{y} - multiset{x}
  {
  }

  lemma {:induction false} BesidePick<P>(background: multiset<Relaying<P>>, job: Job<P>, r: Relaying<P>)
    requires r in background
    ensures Beside(background, job) == (if r.job == job then 1 else 0) + Beside(background - multiset{r}, job)
    decreases |background|
  {
    var q :| q in background
      && Beside(background, job) == (if q.job == job then 1 else 0) + Beside(background - multiset{q}, job);
    if q != r {
      BesidePick(background - multiset{q}, job, r);
      BesidePick(background - multiset{r}, job, q);
      OutBoth(background, q, r);
    }
  }

  lemma BesidePlus<P>(background: multiset<Relaying<P>>, job: Job<P>, r: Relaying<P>)
    ensures Beside(background + multiset{r}, job) == Beside(background, job) + if r.job == job then 1 else 0
  {
    BesidePick(background + multiset{r}, job, r);
    OutAgain(background, r);
  }

  /** How often a job is acknowledged or left to the dead letter queue. */
  ghost function Ended<P>(log: seq<LogEntry<P>>, job: Job<P>): nat {
    multiset(log)[Acknowledged(job)] + multiset(log)[DeadLettered(job)]
  }

  lemma EndedAppend<P>(log: seq<LogEntry<P>>, more: seq<LogEntry<P>>, job: Job<P>)
    ensures Ended(log + more, job) == Ended(log, job) + Ended(more, job)
  {
  }

  // An attempt either goes on or ends its job once.
  lemma LogEnds<P>(r: Relaying<P>, maxRetries: U32, ok: bool, job: Job<P>)
    ensures Ended(LogOf(r, maxRetries, ok), job)
         == if r.job == job && !Judge(r.i, maxRetries, ok).Again? then 1 else 0
  {
    hide Judge;
    var tried := Attempted(r.job, ok);
    assert [tried, Acknowledged(r.job)] == [tried] + [Acknowledged(r.job)];
    assert [tried, DeadLettered(r.job)] == [tried] + [DeadLettered(r.job)];
  }

  /** Relays of a job in the actor's hands, and those it is done with. */
  ghost function Accounted<P>(s: System<P>, job: Job<P>): nat {
    Beside(s.background, job) + (if s.current.Some? && s.current.value.job == job then 1 else 0) + Ended(s.log, job)
  }

  lemma CurrentAccounted<P>(s: System<P>, maxRetries: U32, ok: bool, job: Job<P>)
    requires s.current.Some?
    ensures Accounted(TryCurrent(s, maxRetries, ok), job) == Accounted(s, job)
  {
    hide Judge, LogOf, AcksOf, Ended, Beside;
    var r := s.current.value;
    LogEnds(r, maxRetries, ok, job);
    EndedAppend(s.log, LogOf(r, maxRetries, ok), job);
  }

  lemma BesideAccounted<P>(s: System<P>, maxRetries: U32, r: Relaying<P>, ok: bool, job: Job<P>)
    requires r in s.background
    ensures Accounted(TryBackground(s, maxRetries, r, ok), job) == Accounted(s, job)
  {
    hide Judge, LogOf, AcksOf, Ended, Beside;
    LogEnds(r, maxRetries, ok, job);
    EndedAppend(s.log, LogOf(r, maxRetries, ok), job);
    BesidePick(s.background, job, r);
    var v := Judge(r.i, maxRetries, ok);
    if v.Again? {
      BesidePlus(s.background - multiset{r}, job, Relaying(r.job, v.i));
    }
  }

  lemma TakeAccounted<P>(s: System<P>, job: Job<P>)
    requires s.taken < |s.exec.sent| && s.current.None?
    ensures Accounted(TakeJob(s), job) == Accounted(s, job) + if s.exec.sent[s.taken] == job then 1 else 0
  {
    hide Ended, Beside;
    BesidePlus(s.background, job, Relaying(s.exec.sent[s.taken], 1));
  }

  lemma StepAccounted<P>(s: System<P>, maxRetries: U32, e: SysEvent<P>, job: Job<P>)
    requires CanHappen(s, e)
    ensures Accounted(SysStep(s, maxRetries, e), job)
         == Accounted(s, job) + if e.Take? && s.exec.sent[s.taken] == job then 1 else 0
  {
    hide Step, TakeJob, TryCurrent, TryBackground, Ack, Enabled, Ended, Beside;
    match e
    case Exec(_) =>
    case Deliver =>
    case Take => TakeAccounted(s, job);
    case Try(ok) => CurrentAccounted(s, maxRetries, ok, job);
    case TryUnordered(r, ok) => BesideAccounted(s, maxRetries, r, ok, job);
  }

  /** In every run, each time the relay actor received a job it is being relayed, was
      acknowledged, or was left to the dead letter queue, exactly one of these and once. */
  lemma {:induction false} RelaysConserved<P>(start: U64, maxRetries: U32, events: seq<SysEvent<P>>, job: Job<P>)
    requires CanRun(start, maxRetries, events)
    ensures var s := SysAfter(start, maxRetries, events);
      && s.taken <= |s.exec.sent|
      && multiset(s.exec.sent[..s.taken])[job]
         == (if s.current.Some? && s.current.value.job == job then 1 else 0) + Beside(s.background, job)
              + multiset(s.log)[Acknowledged(job)] + multiset(s.log)[DeadLettered(job)]
  {
    hide CanHappen, SysStep;
    if events == [] {
    } else {
      var n := |events| - 1;
      var s := SysAfter(start, maxRetries, events[..n]);
      RelaysConserved(start, maxRetries, events[..n], job);
      StepAccounted(s, maxRetries, events[n], job);
      ReceivedStep(s, maxRetries, events[n], job);
    }
  }

  // ---- Acknowledgements reach the execution actor ----

  /** The nonces acknowledged in the log, in order. */
  ghost function AckedNonces<P>(log: seq<LogEntry<P>>): seq<U64> {
    if log == [] then []
    else
      var last := log[|log| - 1];
      AckedNonces(log[..|log| - 1]) + if last.Acknowledged? then [last.job.nonce] else []
  }

  /** The acknowledgements delivered in a run, in order. */
  ghost function Delivered<P>(start: U64, maxRetries: U32, events: seq<SysEvent<P>>): seq<U64> {
    if events == [] then []
    else
      var s := SysAfter(start, maxRetries, events[..|events| - 1]);
      Delivered(start, maxRetries, events[..|events| - 1])
        + if events[|events| - 1].Deliver? && s.acks != [] then [s.acks[0]] else []
  }

  lemma {:induction false} AckedAppend<P>(xs: seq<LogEntry<P>>, ys: seq<LogEntry<P>>)
    ensures AckedNonces(xs + ys) == AckedNonces(xs) + AckedNonces(ys)
  {
    if ys == [] {
      assert xs + ys == xs;
    } else {
      var n := |ys| - 1;
      AckedAppend(xs, ys[..n]);
      assert (xs + ys)[..|xs + ys| - 1] == xs + ys[..n];
    }
  }

  lemma AckedOne<P>(entry: LogEntry<P>)
    ensures AckedNonces([entry]) == if entry.Acknowledged? then [entry.job.nonce] else []
  {
    assert [entry][..0] == [];
  }

  lemma LogAcks<P>(r: Relaying<P>, maxRetries: U32, ok: bool)
    ensures AckedNonces(LogOf(r, maxRetries, ok)) == AcksOf(r, maxRetries, ok)
  {
    hide Judge;
    var tried := Attempted(r.job, ok);
    AckedOne(tried);
    AckedOne(Acknowledged(r.job));
    AckedOne(DeadLettered(r.job));
    AckedAppend([tried], [Acknowledged(r.job)]);
    AckedAppend([tried], [DeadLettered(r.job)]);
    assert [tried, Acknowledged(r.job)] == [tried] + [Acknowledged(r.job)];
    assert [tried, DeadLettered(r.job)] == [tried] + [DeadLettered(r.job)];
  }

  lemma StepAcks<P>(s: System<P>, maxRetries: U32, e: SysEvent<P>, delivered: seq<U64>)
    requires CanHappen(s, e) && AckedNonces(s.log) == delivered + s.acks
    ensures var t := SysStep(s, maxRetries, e);
      AckedNonces(t.log) == delivered + (if e.Deliver? then [s.acks[0]] else []) + t.acks
  {
    hide Step, Judge, LogOf, AcksOf, AckedNonces, Enabled;
    match e
    case Exec(_) =>
    case Deliver => assert s.acks == [s.acks[0]] + s.acks[1..];
    case Take =>
    case Try(ok) => TryAcks(s.log, s.acks, delivered, s.current.value, maxRetries, ok);
    case TryUnordered(r, ok) => TryAcks(s.log, s.acks, delivered, r, maxRetries, ok);
  }

  lemma TryAcks<P>(log: seq<LogEntry<P>>, acks: seq<U64>, delivered: seq<U64>,
                   r: Relaying<P>, maxRetries: U32, ok: bool)
    requires AckedNonces(log) == delivered + acks
    ensures AckedNonces(log + LogOf(r, maxRetries, ok)) == delivered + [] + (acks + AcksOf(r, maxRetries, ok))
  {
    LogAcks(r, maxRetries, ok);
    AckedAppend(log, LogOf(r, maxRetries, ok));
  }

  /** In every run the acknowledgements reach the execution actor in the order in which the
      jobs were included; those still on their way are the rest, and none is lost. */
  lemma {:induction false} AcksArrive<P>(start: U64, maxRetries: U32, events: seq<SysEvent<P>>)
    requires CanRun(start, maxRetries, events)
    ensures var s := SysAfter(start, maxRetries, events);
      AckedNonces(s.log) == Delivered(start, maxRetries, events) + s.acks
  {
    hide CanHappen, SysStep, AckedNonces;
    if events == [] {
      NoneAcked<P>();
    } else {
      var n := |events| - 1;
      var s := SysAfter(start, maxRetries, events[..n]);
      AcksArrive(start, maxRetries, events[..n]);
      Delivery(s, events[n]);
      StepAcks(s, maxRetries, events[n], Delivered(start, maxRetries, events[..n]));
    }
  }

  lemma Delivery<P>(s: System<P>, e: SysEvent<P>)
    requires CanHappen(s, e)
    ensures e.Deliver? ==> s.acks != []
  {
  }

  lemma NoneAcked<P>()
    ensures AckedNonces<P>([]) == []
  {
  }
}
