/** Nothing is lost between the two actors: their runs are runs of the execution actor in
    which every acknowledgement is of a job it has handed over. */
module RelayPending {
  import opened Api
  import opened ExecSpec
  import opened ExecPending
  import opened Retry
  import opened RelaySpec

  // What the execution actor sees of one event.
  ghost function Seen<P>(s: System<P>, e: SysEvent<P>): seq<Event<P>>
    requires CanHappen(s, e)
  {
    match e
    case Exec(event) => [event]
    case Deliver => [Relayed(s.acks[0])]
    case Take => []
    case Try(_) => []
    case TryUnordered(_, _) => []
  }

  ghost function Trace<P>(start: U64, maxRetries: U32, events: seq<SysEvent<P>>): seq<Event<P>>
    requires CanRun(start, maxRetries, events)
  {
    if events == [] then []
    else
      var before := events[..|events| - 1];
      Trace(start, maxRetries, before) + Seen(SysAfter(start, maxRetries, before), events[|events| - 1])
  }

  // ---- Acknowledgements are of jobs handed over ----

  ghost predicate AcksHanded<P>(s: System<P>) {
    && s.taken <= |s.exec.sent|
    && (forall i :: 0 <= i < |s.acks| ==> s.acks[i] in Handed(s.exec))
    && (s.current.Some? ==> s.current.value.job.nonce in Handed(s.exec))
    && (forall r :: r in s.background ==> r.job.nonce in Handed(s.exec))
  }

  lemma HandedGrows<P>(x: Exec<P>, y: Exec<P>, n: U64)
    requires x.sent <= y.sent && n in Handed(x)
    ensures n in Handed(y)
  {
    var i :| 0 <= i < |x.sent| && x.sent[i].nonce == n;
    assert y.sent[i] == x.sent[i];
  }

  lemma ExecHanded<P>(s: System<P>, event: Event<P>)
    requires AcksHanded(s)
    ensures AcksHanded(s.(exec := Step(s.exec, event)))
  {
    hide Step, Handed;
    var exec := Step(s.exec, event);
    SentGrows(s.exec, event);
    forall n | n in Handed(s.exec)
      ensures n in Handed(exec)
    {
      HandedGrows(s.exec, exec, n);
    }
  }

  lemma SentHanded<P>(x: Exec<P>, i: nat)
    requires i < |x.sent|
    ensures x.sent[i].nonce in Handed(x)
  {
  }

  lemma DeliverHanded<P>(s: System<P>)
    requires AcksHanded(s) && s.acks != []
    ensures AcksHanded(s.(exec := Ack(s.exec, s.acks[0]), acks := s.acks[1..]))
  {
    hide Handed;
    SameHanded(s.exec, s.acks[0]);
  }

  lemma TakeHanded<P>(s: System<P>)
    requires AcksHanded(s) && s.taken < |s.exec.sent|
    ensures AcksHanded(TakeJob(s))
  {
    hide Handed;
    SentHanded(s.exec, s.taken);
  }

  lemma TryHanded<P>(s: System<P>, maxRetries: U32, ok: bool)
    requires AcksHanded(s) && s.current.Some?
    ensures AcksHanded(TryCurrent(s, maxRetries, ok))
  {
    hide Handed, Judge;
  }

  lemma BackgroundHanded<P>(s: System<P>, maxRetries: U32, r: Relaying<P>, ok: bool)
    requires AcksHanded(s) && r in s.background
    ensures AcksHanded(TryBackground(s, maxRetries, r, ok))
  {
    hide Handed, Judge;
  }

  lemma {:induction false} StepHanded<P>(s: System<P>, maxRetries: U32, e: SysEvent<P>)
    requires AcksHanded(s) && CanHappen(s, e)
    ensures AcksHanded(SysStep(s, maxRetries, e))
  {
    hide AcksHanded, Step, TakeJob, TryCurrent, TryBackground, Ack, Enabled;
    match e
    case Exec(event) =>
      ExecHanded(s, event);
    case Deliver =>
      DeliverHanded(s);
    case Take =>
      TakeHanded(s);
    case Try(ok) =>
      TryHanded(s, maxRetries, ok);
    case TryUnordered(r, ok) =>
      BackgroundHanded(s, maxRetries, r, ok);
  }

  lemma SameHanded<P>(x: Exec<P>, nonce: U64)
    ensures Handed(Ack(x, nonce)) == Handed(x)
  {
  }

  lemma {:induction false} AllHanded<P>(start: U64, maxRetries: U32, events: seq<SysEvent<P>>)
    requires CanRun(start, maxRetries, events)
    ensures AcksHanded(SysAfter(start, maxRetries, events))
  {
    hide SysStep, CanHappen;
    if events != [] {
      var n := |events| - 1;
      AllHanded(start, maxRetries, events[..n]);
      StepHanded(SysAfter(start, maxRetries, events[..n]), maxRetries, events[n]);
    }
  }

  // ---- Projection ----

  lemma StepSeen<P>(s: System<P>, maxRetries: U32, e: SysEvent<P>)
    requires CanHappen(s, e)
    ensures var seen := Seen(s, e);
      && |seen| <= 1
      && (seen == [] ==> SysStep(s, maxRetries, e).exec == s.exec)
      && (seen != [] ==> Enabled(s.exec, seen[0]) && SysStep(s, maxRetries, e).exec == Step(s.exec, seen[0]))
  {
  }

  /** The execution actor takes part in every run of the system as in a run of its own. */
  lemma {:induction false} Projects<P>(start: U64, maxRetries: U32, events: seq<SysEvent<P>>)
    requires CanRun(start, maxRetries, events)
    ensures var trace := Trace(start, maxRetries, events);
      Reachable(start, trace) && After(start, trace) == SysAfter(start, maxRetries, events).exec
  {
    hide SysStep, Step, Seen, Enabled, CanHappen;
    if events != [] {
      var n := |events| - 1;
      Projects(start, maxRetries, events[..n]);
      var s, before := SysAfter(start, maxRetries, events[..n]), Trace(start, maxRetries, events[..n]);
      StepSeen(s, maxRetries, events[n]);
      var seen := Seen(s, events[n]);
      if seen == [] {
        assert before + seen == before;
      } else {
        assert before + seen == before + [seen[0]];
        OneMore(start, before, seen[0]);
      }
    }
  }

  // ---- Nothing lost ----

  /** Accepted nonces are distinct, and no task goes without a reply. */
  ghost predicate Careful<P>(start: U64, maxRetries: U32, events: seq<SysEvent<P>>)
    requires CanRun(start, maxRetries, events)
  {
    events == [] ||
    var before, e := events[..|events| - 1], events[|events| - 1];
    && Careful(start, maxRetries, before)
    && (e.Exec? ==>
          Tidy(SysAfter(start, maxRetries, before).exec, AcceptedIn(start, Trace(start, maxRetries, before)), e.event))
  }

  lemma TidyMore<P>(start: U64, events: seq<Event<P>>, e: Event<P>)
    ensures AllTidy(start, events + [e]) <==>
      AllTidy(start, events) && Tidy(After(start, events), AcceptedIn(start, events), e)
  {
    assert (events + [e])[..|events|] == events;
  }

  lemma {:induction false} CarefulIsTidy<P>(start: U64, maxRetries: U32, events: seq<SysEvent<P>>)
    requires CanRun(start, maxRetries, events)
    ensures Careful(start, maxRetries, events) <==> AllTidy(start, Trace(start, maxRetries, events))
  {
    hide SysStep, Step, Enabled, Handed;
    if events != [] {
      var n := |events| - 1;
      var s, before := SysAfter(start, maxRetries, events[..n]), Trace(start, maxRetries, events[..n]);
      CarefulIsTidy(start, maxRetries, events[..n]);
      Projects(start, maxRetries, events[..n]);
      AllHanded(start, maxRetries, events[..n]);
      var seen := Seen(s, events[n]);
      if seen == [] {
        assert before + seen == before;
      } else {
        assert before + seen == before + [seen[0]];
        TidyMore(start, before, seen[0]);
      }
    }
  }

  /** Throughout a run of both actors every accepted job is in flight, buffered, handed over
      or failed, in exactly one of them, and pending are exactly those not failed nor
      acknowledged, if and only if accepted nonces are distinct and every task gets its reply. */
  lemma {:induction false} SystemLosesNothingIff<P>(start: U64, maxRetries: U32, events: seq<SysEvent<P>>)
    requires CanRun(start, maxRetries, events)
    ensures AlwaysPlaced(start, Trace(start, maxRetries, events)) <==> Careful(start, maxRetries, events)
    ensures After(start, Trace(start, maxRetries, events)) == SysAfter(start, maxRetries, events).exec
  {
    hide AlwaysPlaced, SysAfter, Trace, Careful, CanRun;
    CarefulIsTidy(start, maxRetries, events);
    Projects(start, maxRetries, events);
    NothingLostIff(start, Trace(start, maxRetries, events));
  }
}
