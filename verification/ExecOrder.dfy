/** The reorder buffer: whatever the completion order, jobs leave by nonce, without gaps. */
module ExecOrder {
  import opened Api
  import opened ExecSpec

  function OrderedNonces<P>(jobs: seq<Job<P>>): seq<int> {
    if jobs == [] then []
    else
      var last := jobs[|jobs| - 1];
      OrderedNonces(jobs[..|jobs| - 1]) + if last.ordered then [last.nonce] else []
  }

  function Upto(a: int, b: int): seq<int>
    decreases b - a
  {
    if a >= b then [] else Upto(a, b - 1) + [b - 1]
  }

  lemma {:induction false} OrderedAppend<P>(xs: seq<Job<P>>, ys: seq<Job<P>>)
    ensures OrderedNonces(xs + ys) == OrderedNonces(xs) + OrderedNonces(ys)
  {
    if ys == [] {
      assert xs + ys == xs;
    } else {
      var n := |ys| - 1;
      OrderedAppend(xs, ys[..n]);
      assert (xs + ys)[..|xs + ys| - 1] == xs + ys[..n];
    }
  }

  lemma OrderedOne<P>(job: Job<P>)
    ensures OrderedNonces([job]) == if job.ordered then [job.nonce] else []
  {
    assert [job][..0] == [];
  }

  lemma NothingSent<P>()
    ensures OrderedNonces<P>([]) == []
  {
  }

  lemma {:induction false} UptoJoin(a: int, b: int, c: int)
    requires a <= b <= c
    ensures Upto(a, b) + Upto(b, c) == Upto(a, c)
    decreases c - b
  {
    if b < c {
      UptoJoin(a, b, c - 1);
      assert Upto(a, b) + (Upto(b, c - 1) + [c - 1]) == Upto(a, b) + Upto(b, c - 1) + [c - 1];
    } else {
      assert Upto(a, b) + [] == Upto(a, b);
    }
  }

  lemma UptoEmpty(a: int, b: int)
    requires a >= b
    ensures Upto(a, b) == []
  {
  }

  lemma {:induction false} UptoAt(a: int, b: int, i: nat)
    requires a <= b && i < b - a
    ensures |Upto(a, b)| == b - a && Upto(a, b)[i] == a + i
    decreases b - a
  {
    if i < b - 1 - a {
      UptoAt(a, b - 1, i);
    } else if a < b - 1 {
      UptoAt(a, b - 1, 0);
    }
  }

  // ---- Draining ----

  ghost predicate Keyed<P>(completed: map<U64, Job<P>>) {
    forall n :: n in completed.Keys ==> completed[n].nonce == n && completed[n].ordered
  }

  /** Draining stops at the first gap, if there is one, and hands over exactly what lies
      before it, in order. */
  lemma {:induction false} DrainOk<P>(next: U64, completed: map<U64, Job<P>>, gap: U64)
    requires Keyed(completed) && next <= gap && gap !in completed.Keys
    ensures var end, rest := DrainNext(next, completed), DrainRest(next, completed);
      && next <= end <= gap && end !in completed.Keys
      && (forall n :: next <= n < end ==> n in completed.Keys)
      && (forall n :: n in rest.Keys <==> n in completed.Keys && !(next <= n < end))
      && Keyed(rest)
      && OrderedNonces(DrainJobs(next, completed)) == Upto(next, end)
    decreases completed.Keys
  {
    hide Upto, OrderedNonces;
    if next in completed.Keys {
      var smaller := completed - {next};
      DrainOk(next + 1, smaller, gap);
      var end := DrainNext(next, completed);
      OrderedAppend([completed[next]], DrainJobs(next + 1, smaller));
      OrderedOne(completed[next]);
      UptoJoin(next, next + 1, end);
      UptoOne(next);
    } else {
      NothingSent<P>();
      UptoEmpty(next, next);
    }
  }

  lemma UptoOne(a: int)
    ensures Upto(a, a + 1) == [a]
  {
    assert Upto(a, a) == [];
  }

  // ---- The invariant ----

  /** The next nonce is the first one from `start` on that is not done, the buffer holds
      what is done beyond it, and the nonces handed over so far are all those before it. */
  ghost predicate Inv<P>(x: Exec<P>, start: U64, done: set<U64>) {
    && start <= x.next && x.next !in done
    && (forall n :: start <= n < x.next ==> n in done)
    && (forall n :: x.next <= n ==> (n in x.completed.Keys <==> n in done))
    && (forall n :: n in done ==> start <= n)
    && Keyed(x.completed)
    && (forall job :: job in x.inFlight && job.ordered ==> start <= job.nonce)
    && OrderedNonces(x.sent) == Upto(start, x.next)
  }

  // The ordered nonce this event completes successfully.
  ghost function DoneBy<P>(e: Event<P>): set<U64> {
    if e.Finished? && e.reply == Executed && e.job.ordered then {e.job.nonce} else {}
  }

  lemma ExecutesNext<P>(x: Exec<P>, job: Job<P>, start: U64, done: set<U64>, missing: U64)
    requires Inv(x, start, done) && job.ordered && job.nonce == x.next
    requires start <= missing && missing !in done && missing != job.nonce
    ensures Inv(Executes(x, job), start, done + {job.nonce})
  {
    hide DrainNext, DrainRest, DrainJobs, OrderedNonces, Upto;
    var next := x.next + 1;
    var jobs := DrainJobs(next, x.completed);
    DrainOk(next, x.completed, missing);
    OrderedAppend(x.sent + [job], jobs);
    OrderedAppend(x.sent, [job]);
    OrderedOne(job);
    UptoOne(x.next);
    UptoJoin(start, x.next, next);
    UptoJoin(start, next, DrainNext(next, x.completed));
  }

  lemma ExecutesOk<P>(x: Exec<P>, job: Job<P>, start: U64, done: set<U64>, missing: U64)
    requires Inv(x, start, done) && (job.ordered ==> start <= job.nonce != missing)
    requires start <= missing && missing !in done
    ensures Inv(Executes(x, job), start, done + if job.ordered then {job.nonce} else {})
  {
    hide DrainNext, DrainRest, DrainJobs, OrderedNonces, Upto;
    if job.ordered && job.nonce == x.next {
      ExecutesNext(x, job, start, done, missing);
    } else if !job.ordered {
      OrderedAppend(x.sent, [job]);
      OrderedOne(job);
      assert OrderedNonces(x.sent) + [] == OrderedNonces(x.sent);
      assert done + {} == done;
    }
  }

  // What is in flight may only lose a task.
  lemma LandedOk<P>(x: Exec<P>, job: Job<P>, start: U64, done: set<U64>)
    requires Inv(x, start, done) && job in x.inFlight
    ensures Inv(x.(inFlight := x.inFlight - multiset{job}), start, done)
    ensures job.ordered ==> start <= job.nonce
  {
    hide OrderedNonces, Upto, Keyed;
  }

  lemma AcceptOk<P>(x: Exec<P>, job: Job<P>, start: U64, done: set<U64>)
    requires Inv(x, start, done)
    ensures Inv(Accept(x, job), start, done)
  {
    hide OrderedNonces, Upto, Keyed;
  }

  lemma PendingOk<P>(x: Exec<P>, pending: set<U64>, start: U64, done: set<U64>)
    requires Inv(x, start, done)
    ensures Inv(x.(pending := pending), start, done)
  {
    hide OrderedNonces, Upto, Keyed;
  }

  lemma {:induction false} StepOk<P>(x: Exec<P>, e: Event<P>, start: U64, done: set<U64>, missing: U64)
    requires Inv(x, start, done) && Enabled(x, e)
    requires start <= missing && missing !in done + DoneBy(e)
    ensures Inv(Step(x, e), start, done + DoneBy(e))
  {
    hide Inv, Executes, Accept;
    assert done + {} == done;
    match e
    case Submitted(job) =>
      AcceptOk(x, job, start, done);
    case Relayed(nonce) =>
      PendingOk(x, x.pending - {nonce}, start, done);
    case Finished(job, reply) =>
      var y := x.(inFlight := x.inFlight - multiset{job});
      LandedOk(x, job, start, done);
      PendingOk(y, y.pending - {job.nonce}, start, done);
      if reply == Executed {
        ExecutesOk(y, job, start, done, missing);
      }
  }

  // ---- Every run ----

  /** The nonces of the ordered jobs completed successfully so far. */
  ghost function DoneIn<P>(events: seq<Event<P>>): set<U64> {
    if events == [] then {} else DoneIn(events[..|events| - 1]) + DoneBy(events[|events| - 1])
  }

  lemma {:induction false} RunOk<P>(start: U64, events: seq<Event<P>>, missing: U64)
    requires Reachable(start, events) && start <= missing && missing !in DoneIn(events)
    ensures Inv(After(start, events), start, DoneIn(events))
  {
    hide Step, Enabled;
    if events == [] {
      StartOk<P>(start);
    } else {
      var n := |events| - 1;
      RunOk(start, events[..n], missing);
      StepOk(After(start, events[..n]), events[n], start, DoneIn(events[..n]), missing);
    }
  }

  lemma StartOk<P>(start: U64)
    ensures Inv<P>(Start(start), start, {})
  {
  }

  /** n is the least nonce from `start` on that no ordered job has completed. */
  ghost predicate LeastMissing(n: U64, start: U64, done: set<U64>) {
    start <= n && n !in done && forall m :: start <= m < n ==> m in done
  }

  /** Some nonce from `start` on is still missing. Once none is, the counter has wrapped. */
  ghost predicate Incomplete(start: U64, done: set<U64>) {
    exists n: U64 {:trigger n in done} :: start <= n && n !in done
  }

  /** In every reachable state the next job to submit is the least missing nonce, whatever
      the completion order and with duplicate nonces, if and only if one is missing at all;
      and the ordered nonces handed over are all those before it. */
  lemma {:induction false} NextIsLeastMissing<P>(start: U64, events: seq<Event<P>>)
    requires Reachable(start, events)
    ensures LeastMissing(After(start, events).next, start, DoneIn(events)) <==> Incomplete(start, DoneIn(events))
    ensures Incomplete(start, DoneIn(events)) ==>
      OrderedNonces(After(start, events).sent) == Upto(start, After(start, events).next)
  {
    hide After, DoneIn, OrderedNonces, Upto;
    if Incomplete(start, DoneIn(events)) {
      var missing: U64 :| start <= missing && missing !in DoneIn(events);
      RunOk(start, events, missing);
    }
  }

  /** Two runs that complete the same jobs hand over the same nonces in the same order. */
  lemma {:induction false} OrderIndependent<P, Q>(start: U64, xs: seq<Event<P>>, ys: seq<Event<Q>>)
    requires Reachable(start, xs) && Reachable(start, ys)
    requires DoneIn(xs) == DoneIn(ys) && Incomplete(start, DoneIn(xs))
    ensures After(start, xs).next == After(start, ys).next
    ensures OrderedNonces(After(start, xs).sent) == OrderedNonces(After(start, ys).sent)
  {
    hide After, DoneIn, OrderedNonces, Upto, Reachable;
    NextIsLeastMissing(start, xs);
    NextIsLeastMissing(start, ys);
  }

  /** A nonce that is never completed holds back every later one. */
  lemma {:induction false} MissingBlocks<P>(start: U64, events: seq<Event<P>>, n: U64, i: nat)
    requires Reachable(start, events) && start <= n && n !in DoneIn(events)
    requires i < |OrderedNonces(After(start, events).sent)|
    ensures OrderedNonces(After(start, events).sent)[i] < n
  {
    hide After, DoneIn, OrderedNonces, Upto, Reachable;
    NextIsLeastMissing(start, events);
    var nonces := OrderedNonces(After(start, events).sent);
    assert nonces[i] in nonces;
    UptoHolds(start, After(start, events).next, nonces[i]);
  }

  lemma {:induction false} UptoHolds(a: int, b: int, n: int)
    ensures n in Upto(a, b) <==> a <= n < b
    decreases b - a
  {
    if a < b {
      UptoHolds(a, b - 1, n);
    }
  }

  /** In every reachable state with a nonce missing, an ordered job with a result to come or
      at hand is taken on exactly if its nonce is not among those already handed over. */
  lemma {:induction false} AcceptedIff<P>(start: U64, events: seq<Event<P>>, job: Job<P>)
    requires Reachable(start, events) && Incomplete(start, DoneIn(events))
    requires job.ordered && job.state != Neither && start <= job.nonce
    ensures Accepts(After(start, events), job) <==> job.nonce !in OrderedNonces(After(start, events).sent)
  {
    hide After, DoneIn, OrderedNonces, Upto;
    NextIsLeastMissing(start, events);
    UptoHolds(start, After(start, events).next, job.nonce);
  }

  /** Once the very last nonce is relayed none is missing, and the counter is back at 0. */
  lemma {:induction false} CounterWraps<P>(job: Job<P>)
    requires job.ordered && job.nonce == 0xFFFF_FFFF_FFFF_FFFF && job.state == Pending
    ensures var events := [Submitted(job)] + [Finished(job, Executed)];
      Reachable(job.nonce, events) && After(job.nonce, events).next == 0
  {
    OneMore(job.nonce, [], Submitted(job));
    assert [] + [Submitted(job)] == [Submitted(job)];
    OneMore(job.nonce, [Submitted(job)], Finished(job, Executed));
  }
}
