/** No accepted job is lost, and the pending set is exact, when accepted nonces are
    distinct and every task gets its reply. */
module ExecPending {
  import opened Api
  import opened ExecSpec

  ghost function NoncesOf<P>(jobs: seq<Job<P>>): set<U64> {
    set i | 0 <= i < |jobs| :: jobs[i].nonce
  }

  ghost predicate NoRepeat<P>(jobs: seq<Job<P>>) {
    forall i, j :: 0 <= i < j < |jobs| ==> jobs[i].nonce != jobs[j].nonce
  }

  lemma NoncesAppend<P>(xs: seq<Job<P>>, ys: seq<Job<P>>)
    ensures NoncesOf(xs + ys) == NoncesOf(xs) + NoncesOf(ys)
    ensures NoRepeat(xs) && NoRepeat(ys) && NoncesOf(xs) !! NoncesOf(ys) ==> NoRepeat(xs + ys)
  {
    forall n
      ensures n in NoncesOf(xs + ys) <==> n in NoncesOf(xs) + NoncesOf(ys)
    {
      if n in NoncesOf(xs) {
        var i :| 0 <= i < |xs| && xs[i].nonce == n;
        assert (xs + ys)[i].nonce == n;
      }
      if n in NoncesOf(ys) {
        var i :| 0 <= i < |ys| && ys[i].nonce == n;
        assert (xs + ys)[|xs| + i].nonce == n;
      }
    }
    if NoRepeat(xs) && NoRepeat(ys) && NoncesOf(xs) !! NoncesOf(ys) {
      forall i, j | 0 <= i < j < |xs + ys|
        ensures (xs + ys)[i].nonce != (xs + ys)[j].nonce
      {
        if i < |xs| <= j {
          assert xs[i].nonce in NoncesOf(xs) && ys[j - |xs|].nonce in NoncesOf(ys);
        }
      }
    }
  }

  lemma NoncesOne<P>(job: Job<P>)
    ensures NoncesOf([job]) == {job.nonce} && NoRepeat([job])
  {
    assert [job][0].nonce in NoncesOf([job]);
  }

  /** Draining moves jobs from the buffer to the relay actor and drops none. */
  lemma {:induction false} DrainMoves<P>(next: U64, completed: map<U64, Job<P>>)
    requires forall n :: n in completed.Keys ==> completed[n].nonce == n
    ensures var jobs, rest := DrainJobs(next, completed), DrainRest(next, completed);
      && rest.Keys <= completed.Keys && NoncesOf(jobs) == completed.Keys - rest.Keys && NoRepeat(jobs)
      && forall n :: n in rest.Keys ==> rest[n] == completed[n]
    decreases completed.Keys
  {
    if next in completed {
      var smaller := completed - {next};
      DrainMoves(Add64(next, 1), smaller);
      var jobs := DrainJobs(Add64(next, 1), smaller);
      NoncesOne(completed[next]);
      NoncesAppend([completed[next]], jobs);
    }
  }

  // ---- Where a job can be ----

  ghost function Flying<P>(x: Exec<P>): set<U64> {
    set job | job in x.inFlight :: job.nonce
  }

  ghost function Buffered<P>(x: Exec<P>): set<U64> { x.completed.Keys }

  ghost function Handed<P>(x: Exec<P>): set<U64> { NoncesOf(x.sent) }

  /** Each accepted nonce is in exactly one place, once, and pending are those not yet
      failed nor acknowledged. */
  ghost predicate Placed<P>(x: Exec<P>, accepted: set<U64>, failed: set<U64>, acked: set<U64>) {
    && accepted == Flying(x) + Buffered(x) + Handed(x) + failed
    && Flying(x) !! Buffered(x) !! Handed(x) !! failed
    && (forall j, k :: j in x.inFlight && k in x.inFlight && j.nonce == k.nonce ==> j == k)
    && (forall j :: j in x.inFlight ==> x.inFlight[j] == 1)
    && (forall n :: n in x.completed.Keys ==> x.completed[n].nonce == n)
    && NoRepeat(x.sent)
    && acked <= Handed(x)
    && x.pending == Flying(x) + Buffered(x) + (Handed(x) - acked)
  }

  // What the history adds.

  ghost function AcceptedBy<P>(x: Exec<P>, e: Event<P>): set<U64> {
    if e.Submitted? && Accepts(x, e.job) then {e.job.nonce} else {}
  }

  ghost function FailedBy<P>(e: Event<P>): set<U64> {
    if e.Finished? && e.reply == Failed then {e.job.nonce} else {}
  }

  ghost function AckedBy<P>(e: Event<P>): set<U64> {
    if e.Relayed? then {e.nonce} else {}
  }

  /** A fresh nonce if accepted, a reply for every task, and acknowledgements only of jobs
      handed over. */
  ghost predicate Tidy<P>(x: Exec<P>, accepted: set<U64>, e: Event<P>) {
    match e
    case Submitted(job) => Accepts(x, job) ==> job.nonce !in accepted
    case Finished(_, reply) => reply != Lost
    case Relayed(nonce) => nonce in Handed(x)
  }

  lemma AcceptPlaced<P>(x: Exec<P>, job: Job<P>, accepted: set<U64>, failed: set<U64>, acked: set<U64>)
    requires Placed(x, accepted, failed, acked) && Accepts(x, job) && job.nonce !in accepted
    ensures Placed(Accept(x, job), accepted + {job.nonce}, failed, acked)
  {
    var y := Accept(x, job);
    assert job in x.inFlight ==> job.nonce in Flying(x);
    FlyingPlus(x, job);
    forall j | j in x.inFlight
      ensures j.nonce != job.nonce
    {
      assert j.nonce in Flying(x);
    }
  }

  lemma FlyingPlus<P>(x: Exec<P>, job: Job<P>)
    requires Accepts(x, job)
    ensures Flying(Accept(x, job)) == Flying(x) + {job.nonce}
  {
    var y := Accept(x, job);
    assert job in y.inFlight;
    forall n
      ensures n in Flying(y) <==> n in Flying(x) + {job.nonce}
    {
      if n in Flying(x) {
        var j :| j in x.inFlight && j.nonce == n;
        assert j in y.inFlight;
      }
    }
  }

  // A finished task leaves the set of tasks in flight, and with it its nonce.
  lemma Landed<P>(x: Exec<P>, job: Job<P>, accepted: set<U64>, failed: set<U64>, acked: set<U64>)
    requires Placed(x, accepted, failed, acked) && job in x.inFlight
    ensures var y := x.(inFlight := x.inFlight - multiset{job});
      && Flying(y) == Flying(x) - {job.nonce}
      && job.nonce in Flying(x)
      && (forall j :: j in y.inFlight ==> j in x.inFlight) && (forall j :: j in y.inFlight ==> y.inFlight[j] == 1)
  {
    var y := x.(inFlight := x.inFlight - multiset{job});
    forall n
      ensures n in Flying(y) <==> n in Flying(x) - {job.nonce}
    {
      if n in Flying(x) && n != job.nonce {
        var j :| j in x.inFlight && j.nonce == n;
        assert j in y.inFlight;
      }
    }
  }

  lemma FinishPlaced<P>(x: Exec<P>, job: Job<P>, reply: Reply, accepted: set<U64>, failed: set<U64>, acked: set<U64>)
    requires Placed(x, accepted, failed, acked) && job in x.inFlight && reply != Lost
    ensures Placed(Finish(x, job, reply), accepted, failed + if reply == Failed then {job.nonce} else {}, acked)
  {
    hide DrainNext, DrainRest, DrainJobs, NoncesOf, NoRepeat, Flying;
    Landed(x, job, accepted, failed, acked);
    var y := x.(inFlight := x.inFlight - multiset{job});
    if reply == Executed {
      NoncesOne(job);
      NoncesAppend(x.sent, [job]);
      if job.ordered && job.nonce == x.next {
        var next := Add64(x.next, 1);
        DrainMoves(next, x.completed);
        NoncesAppend(x.sent + [job], DrainJobs(next, x.completed));
      }
    }
    FlyingSame(y, Finish(x, job, reply));
  }

  lemma FlyingSame<P>(x: Exec<P>, y: Exec<P>)
    requires x.inFlight == y.inFlight
    ensures Flying(x) == Flying(y)
  {
  }

  // ---- What breaks it ----

  /** Accepting a nonce once more leaves two jobs under it, wherever the first one is. */
  lemma RepeatBreaks<P>(x: Exec<P>, job: Job<P>, accepted: set<U64>, failed: set<U64>, acked: set<U64>)
    requires Placed(x, accepted, failed, acked) && Accepts(x, job) && job.nonce in accepted
    ensures !Placed(Accept(x, job), accepted, failed, acked)
  {
    hide NoncesOf, NoRepeat;
    FlyingPlus(x, job);
    var y := Accept(x, job);
    if job.nonce in Flying(x) {
      var other :| other in x.inFlight && other.nonce == job.nonce;
      assert other in y.inFlight && job in y.inFlight;
      assert other == job ==> y.inFlight[job] == 2;
    }
  }

  /** A task without a reply leaves its nonce pending although the job is nowhere. */
  lemma LostStaysPending<P>(x: Exec<P>, job: Job<P>, accepted: set<U64>, failed: set<U64>, acked: set<U64>)
    requires Placed(x, accepted, failed, acked) && job in x.inFlight
    ensures var y := Finish(x, job, Lost);
      && job.nonce in y.pending && job.nonce !in Flying(y) + Buffered(y) + Handed(y) + failed
      && !Placed(y, accepted, failed, acked)
  {
    hide NoncesOf, NoRepeat;
    Landed(x, job, accepted, failed, acked);
  }

  lemma StrayAckBreaks<P>(x: Exec<P>, nonce: U64, accepted: set<U64>, failed: set<U64>, acked: set<U64>)
    requires nonce !in Handed(x)
    ensures !Placed(Ack(x, nonce), accepted, failed, acked + {nonce})
  {
    assert Handed(Ack(x, nonce)) == Handed(x);
  }

  /** A step keeps every job placed if and only if it is tidy. */
  lemma {:induction false} StepPlacedIff<P>(x: Exec<P>, e: Event<P>,
                                           accepted: set<U64>, failed: set<U64>, acked: set<U64>)
    requires Placed(x, accepted, failed, acked) && Enabled(x, e)
    ensures Placed(Step(x, e), accepted + AcceptedBy(x, e), failed + FailedBy(e), acked + AckedBy(e))
      <==> Tidy(x, accepted, e)
  {
    hide Placed, Accepts, Accept, Finish, Handed;
    assert accepted + {} == accepted && failed + {} == failed && acked + {} == acked;
    match e
    case Submitted(job) =>
      if !Accepts(x, job) {
        RejectSame(x, job);
      } else if job.nonce in accepted {
        assert accepted + {job.nonce} == accepted;
        RepeatBreaks(x, job, accepted, failed, acked);
      } else {
        AcceptPlaced(x, job, accepted, failed, acked);
      }
    case Finished(job, reply) =>
      if reply == Lost {
        LostStaysPending(x, job, accepted, failed, acked);
      } else {
        FinishPlaced(x, job, reply, accepted, failed, acked);
      }
    case Relayed(nonce) =>
      if nonce in Handed(x) {
        AckPlaced(x, nonce, accepted, failed, acked);
      } else {
        StrayAckBreaks(x, nonce, accepted, failed, acked);
      }
  }

  lemma RejectSame<P>(x: Exec<P>, job: Job<P>)
    requires !Accepts(x, job)
    ensures Accept(x, job) == x
  {
  }

  lemma AckPlaced<P>(x: Exec<P>, nonce: U64, accepted: set<U64>, failed: set<U64>, acked: set<U64>)
    requires Placed(x, accepted, failed, acked) && nonce in Handed(x)
    ensures Placed(Ack(x, nonce), accepted, failed, acked + {nonce})
  {
    hide NoncesOf, NoRepeat, Flying;
    FlyingSame(x, Ack(x, nonce));
  }

  // ---- Every run ----

  ghost function AcceptedIn<P>(start: U64, events: seq<Event<P>>): set<U64> {
    if events == [] then {}
    else
      var before := events[..|events| - 1];
      AcceptedIn(start, before) + AcceptedBy(After(start, before), events[|events| - 1])
  }

  ghost function FailedIn<P>(events: seq<Event<P>>): set<U64> {
    if events == [] then {} else FailedIn(events[..|events| - 1]) + FailedBy(events[|events| - 1])
  }

  ghost function AckedIn<P>(events: seq<Event<P>>): set<U64> {
    if events == [] then {} else AckedIn(events[..|events| - 1]) + AckedBy(events[|events| - 1])
  }

  ghost predicate AllTidy<P>(start: U64, events: seq<Event<P>>) {
    events == [] ||
    var before := events[..|events| - 1];
    AllTidy(start, before) && Tidy(After(start, before), AcceptedIn(start, before), events[|events| - 1])
  }

  /** Placed now and at every moment before. */
  ghost predicate AlwaysPlaced<P>(start: U64, events: seq<Event<P>>) {
    && (events == [] || AlwaysPlaced(start, events[..|events| - 1]))
    && Placed(After(start, events), AcceptedIn(start, events), FailedIn(events), AckedIn(events))
  }

  /** Throughout a run every accepted job is in flight, buffered, handed over or failed, in
      exactly one of them, and pending are exactly those not failed nor acknowledged, if and
      only if accepted nonces are distinct, every task gets its reply, and only jobs handed
      over are acknowledged. */
  lemma {:induction false} NothingLostIff<P>(start: U64, events: seq<Event<P>>)
    requires Reachable(start, events)
    ensures AlwaysPlaced(start, events) <==> AllTidy(start, events)
  {
    hide Step, Enabled, Tidy, Placed;
    if events == [] {
      StartPlaced<P>(start);
    } else {
      var before := events[..|events| - 1];
      NothingLostIff(start, before);
      if AlwaysPlaced(start, before) {
        PlacedNow(start, before);
        StepPlacedIff(After(start, before), events[|events| - 1],
                      AcceptedIn(start, before), FailedIn(before), AckedIn(before));
      }
    }
  }

  lemma PlacedNow<P>(start: U64, events: seq<Event<P>>)
    requires AlwaysPlaced(start, events)
    ensures Placed(After(start, events), AcceptedIn(start, events), FailedIn(events), AckedIn(events))
  {
  }

  lemma StartPlaced<P>(start: U64)
    ensures Placed<P>(Start(start), {}, {}, {})
  {
  }

  // ---- A run in which a repeated nonce is forgotten ----

  lemma TwoAccepted<P>(first: Job<P>, second: Job<P>, start: U64)
    requires first.nonce == second.nonce == start && first.state == Pending && second.state == Pending
    ensures var events := [Submitted(first)] + [Submitted(second)];
      Reachable(start, events) && After(start, events) == Exec(start, map[], {start}, multiset{first, second}, [])
  {
    OneMore(start, [], Submitted(first));
    assert [] + [Submitted(first)] == [Submitted(first)];
    OneMore(start, [Submitted(first)], Submitted(second));
    assert multiset{first} + multiset{second} == multiset{first, second};
  }

  /** Two jobs accepted under one nonce: the acknowledgement of the first clears the nonce
      from the pending set while the second is still in flight. */
  lemma DuplicateUntracked<P>(first: Job<P>, second: Job<P>, start: U64)
    requires first.nonce == second.nonce == start && first.ordered && second.ordered
    requires first.state == Pending && second.state == Pending && first != second
    ensures var events := [Submitted(first)] + [Submitted(second)] + [Finished(first, Executed)] + [Relayed(start)];
      var x := After(start, events);
      && Reachable(start, events) && second in x.inFlight && x.pending == {}
  {
    hide After, Reachable;
    TwoAccepted(first, second, start);
    var events := [Submitted(first)] + [Submitted(second)];
    var x := Exec(start, map[], {start}, multiset{first, second}, []);
    OneMore(start, events, Finished(first, Executed));
    assert second in Finish(x, first, Executed).inFlight;
    OneMore(start, events + [Finished(first, Executed)], Relayed(start));
  }
}
