/** Ordered jobs stay ordered through both actors. */
module RelayOrder {
  import opened Api
  import opened ExecSpec
  import opened ExecOrder
  import opened Retry
  import opened RelaySpec

  // ---- The log ----

  ghost predicate Settles<P>(entry: LogEntry<P>, n: int) {
    !entry.Attempted? && entry.job.ordered && entry.job.nonce == n
  }

  /** The ordered job n has been acknowledged or put into the dead letter queue. */
  ghost predicate SettledIn<P>(log: seq<LogEntry<P>>, n: int) {
    exists h :: 0 <= h < |log| && Settles(log[h], n)
  }

  /** Nothing happens to an ordered job before all its predecessors are settled. */
  ghost predicate InTurn<P>(log: seq<LogEntry<P>>, start: U64) {
    log == [] ||
    var before, entry := log[..|log| - 1], log[|log| - 1];
    && InTurn(before, start)
    && (entry.job.ordered ==> forall n :: start <= n < entry.job.nonce ==> SettledIn(before, n))
  }

  /** The nonces of the ordered jobs included, in the order of inclusion. */
  ghost function Inclusions<P>(log: seq<LogEntry<P>>): seq<int> {
    if log == [] then []
    else
      var entry := log[|log| - 1];
      Inclusions(log[..|log| - 1])
        + if entry.Attempted? && entry.ok && entry.job.ordered then [entry.job.nonce] else []
  }

  ghost predicate Rising(xs: seq<int>, below: int) {
    && (forall i, j :: 0 <= i < j < |xs| ==> xs[i] < xs[j])
    && (forall i :: 0 <= i < |xs| ==> xs[i] < below)
  }

  lemma SettledStays<P>(log: seq<LogEntry<P>>, more: seq<LogEntry<P>>, n: int)
    requires SettledIn(log, n)
    ensures SettledIn(log + more, n)
  {
    var h :| 0 <= h < |log| && Settles(log[h], n);
    assert (log + more)[h] == log[h];
  }

  // One more entry.
  lemma LogPlus<P>(log: seq<LogEntry<P>>, entry: LogEntry<P>)
    ensures (log + [entry])[..|log + [entry]| - 1] == log
  {
  }

  // ---- The invariant ----

  // The next ordered nonce the relay actor will receive.
  ghost function Received<P>(s: System<P>, start: U64): int
    requires s.taken <= |s.exec.sent|
  {
    start + |OrderedNonces(s.exec.sent[..s.taken])|
  }

  ghost predicate RelayInv<P>(s: System<P>, start: U64, done: set<U64>) {
    && Inv(s.exec, start, done)
    && s.taken <= |s.exec.sent|
    && OrderedNonces(s.exec.sent[..s.taken]) == Upto(start, Received(s, start))
    && LogInv(s.log, start, if s.current.Some? then Received(s, start) - 1 else Received(s, start))
    && (s.current.Some? ==> s.current.value.job.ordered && s.current.value.job.nonce == Received(s, start) - 1 >= start)
    && (forall r :: r in s.background ==> !r.job.ordered)
  }

  // All ordered jobs before `bound` are settled, none from there on has been included.
  ghost predicate LogInv<P>(log: seq<LogEntry<P>>, start: U64, bound: int) {
    && InTurn(log, start)
    && (forall n :: start <= n < bound ==> SettledIn(log, n))
    && Rising(Inclusions(log), bound)
  }

  // An entry of an unordered job changes nothing here.
  lemma UnorderedEntry<P>(log: seq<LogEntry<P>>, entry: LogEntry<P>, start: U64, bound: int)
    requires LogInv(log, start, bound) && !entry.job.ordered
    ensures LogInv(log + [entry], start, bound)
  {
    LogPlus(log, entry);
    forall n | start <= n < bound
      ensures SettledIn(log + [entry], n)
    {
      SettledStays(log, [entry], n);
    }
    assert Inclusions(log) + [] == Inclusions(log);
  }

  lemma OrderedEntry<P>(log: seq<LogEntry<P>>, entry: LogEntry<P>, start: U64, bound: int)
    requires LogInv(log, start, bound) && entry.job.ordered && entry.job.nonce == bound
    ensures entry.Attempted? && !entry.ok ==> LogInv(log + [entry], start, bound)
    ensures !entry.Attempted? ==> LogInv(log + [entry], start, bound) && SettledIn(log + [entry], bound)
    ensures InTurn(log + [entry], start) && Rising(Inclusions(log + [entry]), bound + 1)
    ensures forall n :: start <= n < bound ==> SettledIn(log + [entry], n)
  {
    LogPlus(log, entry);
    forall n | start <= n < bound
      ensures SettledIn(log + [entry], n)
    {
      SettledStays(log, [entry], n);
    }
    assert Inclusions(log) + [] == Inclusions(log);
    if !entry.Attempted? {
      assert Settles((log + [entry])[|log|], bound);
    }
  }

  // The settling entry after an attempt.
  lemma SettlingEntry<P>(log: seq<LogEntry<P>>, entry: LogEntry<P>, start: U64, bound: int)
    requires InTurn(log, start) && (forall n :: start <= n < bound ==> SettledIn(log, n))
    requires Rising(Inclusions(log), bound + 1)
    requires !entry.Attempted? && entry.job.ordered && entry.job.nonce == bound
    ensures LogInv(log + [entry], start, bound + 1)
  {
    LogPlus(log, entry);
    forall n | start <= n < bound + 1
      ensures SettledIn(log + [entry], n)
    {
      if n < bound {
        SettledStays(log, [entry], n);
      } else {
        assert Settles((log + [entry])[|log|], n);
      }
    }
    assert Inclusions(log) + [] == Inclusions(log);
  }

  lemma TwoEntries<P>(log: seq<LogEntry<P>>, a: LogEntry<P>, b: LogEntry<P>)
    ensures log + [a, b] == (log + [a]) + [b]
  {
  }

  lemma OrderedTry<P>(log: seq<LogEntry<P>>, r: Relaying<P>, maxRetries: U32, ok: bool, start: U64)
    requires LogInv(log, start, r.job.nonce) && r.job.ordered
    ensures var bound := r.job.nonce + if Judge(r.i, maxRetries, ok).Again? then 0 else 1;
      LogInv(log + LogOf(r, maxRetries, ok), start, bound)
  {
    hide LogInv, InTurn, Rising, Inclusions, SettledIn;
    var tried := Attempted(r.job, ok);
    OrderedEntry(log, tried, start, r.job.nonce);
    var v := Judge(r.i, maxRetries, ok);
    if !v.Again? {
      var settled := if v.Included? then Acknowledged(r.job) else DeadLettered(r.job);
      SettlingEntry(log + [tried], settled, start, r.job.nonce);
      TwoEntries(log, tried, settled);
    }
  }

  lemma UnorderedTry<P>(log: seq<LogEntry<P>>, r: Relaying<P>, maxRetries: U32, ok: bool, start: U64, bound: int)
    requires LogInv(log, start, bound) && !r.job.ordered
    ensures LogInv(log + LogOf(r, maxRetries, ok), start, bound)
  {
    hide LogInv;
    var tried := Attempted(r.job, ok);
    UnorderedEntry(log, tried, start, bound);
    var v := Judge(r.i, maxRetries, ok);
    if !v.Again? {
      var settled := if v.Included? then Acknowledged(r.job) else DeadLettered(r.job);
      UnorderedEntry(log + [tried], settled, start, bound);
      TwoEntries(log, tried, settled);
    }
  }

  // ---- Steps ----

  // The relay actor receives ordered jobs one nonce after the other.
  lemma NextReceived<P>(s: System<P>, start: U64, done: set<U64>)
    requires RelayInv(s, start, done) && s.taken < |s.exec.sent|
    ensures var job, p := s.exec.sent[s.taken], Received(s, start);
      && OrderedNonces(s.exec.sent[..s.taken + 1]) == Upto(start, p) + (if job.ordered then [job.nonce] else [])
      && (job.ordered ==> job.nonce == p)
  {
    hide Inv, LogInv, OrderedNonces, Upto;
    var sent, p := s.exec.sent, Received(s, start);
    OrderedIndex(sent, s.taken);
    SentUpto(s.exec, start, done);
    UptoLength(start, p);
    UptoLength(start, s.exec.next);
    if sent[s.taken].ordered {
      UptoAt(start, s.exec.next, p - start);
    }
  }

  // An ordered job comes after as many as are before it.
  lemma OrderedIndex<P>(jobs: seq<Job<P>>, t: nat)
    requires t < |jobs|
    ensures var before, all := OrderedNonces(jobs[..t]), OrderedNonces(jobs);
      && OrderedNonces(jobs[..t + 1]) == before + (if jobs[t].ordered then [jobs[t].nonce] else [])
      && (jobs[t].ordered ==> |before| < |all| && all[|before|] == jobs[t].nonce)
  {
    hide OrderedNonces;
    assert jobs[..t + 1] == jobs[..t] + [jobs[t]] && jobs == jobs[..t + 1] + jobs[t + 1..];
    OrderedAppend(jobs[..t], [jobs[t]]);
    OrderedOne(jobs[t]);
    OrderedAppend(jobs[..t + 1], jobs[t + 1..]);
  }

  lemma SentUpto<P>(x: Exec<P>, start: U64, done: set<U64>)
    requires Inv(x, start, done)
    ensures OrderedNonces(x.sent) == Upto(start, x.next) && start <= x.next
  {
  }

  lemma UptoLength(a: int, b: int)
    requires a <= b
    ensures |Upto(a, b)| == b - a
  {
    if a < b {
      UptoAt(a, b, 0);
    }
  }

  lemma TakeOk<P>(s: System<P>, start: U64, done: set<U64>)
    requires RelayInv(s, start, done) && s.taken < |s.exec.sent| && s.current.None?
    ensures RelayInv(TakeJob(s), start, done)
  {
    hide Inv, LogInv, OrderedNonces;
    NextReceived(s, start, done);
    UptoLength(start, Received(s, start));
    assert Upto(start, Received(s, start)) + [] == Upto(start, Received(s, start));
  }

  lemma ExecOk<P>(s: System<P>, start: U64, done: set<U64>, exec: Exec<P>, done': set<U64>)
    requires RelayInv(s, start, done) && Inv(exec, start, done') && s.exec.sent <= exec.sent
    ensures RelayInv(s.(exec := exec), start, done')
  {
    hide Inv, LogInv;
    assert exec.sent[..s.taken] == s.exec.sent[..s.taken];
  }

  lemma TryOk<P>(s: System<P>, maxRetries: U32, ok: bool, start: U64, done: set<U64>)
    requires RelayInv(s, start, done) && s.current.Some?
    ensures RelayInv(TryCurrent(s, maxRetries, ok), start, done)
  {
    hide Inv, LogInv, OrderedNonces, Upto, LogOf, AcksOf, Judge;
    OrderedTry(s.log, s.current.value, maxRetries, ok, start);
  }

  lemma BackgroundOk<P>(s: System<P>, maxRetries: U32, r: Relaying<P>, ok: bool, start: U64, done: set<U64>)
    requires RelayInv(s, start, done) && r in s.background
    ensures RelayInv(TryBackground(s, maxRetries, r, ok), start, done)
  {
    hide Inv, LogInv, OrderedNonces, Upto, LogOf, AcksOf, Judge;
    var bound := if s.current.Some? then Received(s, start) - 1 else Received(s, start);
    UnorderedTry(s.log, r, maxRetries, ok, start, bound);
  }

  ghost function SysDone<P>(e: SysEvent<P>): set<U64> {
    if e.Exec? then DoneBy(e.event) else {}
  }

  lemma {:induction false} SysStepOk<P>(s: System<P>, maxRetries: U32, e: SysEvent<P>,
                                     start: U64, done: set<U64>, missing: U64)
    requires RelayInv(s, start, done) && CanHappen(s, e)
    requires start <= missing && missing !in done + SysDone(e)
    ensures RelayInv(SysStep(s, maxRetries, e), start, done + SysDone(e))
  {
    hide RelayInv, Inv, Step, TakeJob, TryCurrent, TryBackground, Ack, Enabled;
    assert done + {} == done;
    match e
    case Exec(event) =>
      ExecInv(s, start, done);
      StepOk(s.exec, event, start, done, missing);
      SentGrows(s.exec, event);
      ExecOk(s, start, done, Step(s.exec, event), done + DoneBy(event));
    case Deliver =>
      ExecInv(s, start, done);
      AckKeeps(s.exec, s.acks[0], start, done);
      ExecOk(s, start, done, Ack(s.exec, s.acks[0]), done);
      AcksApart(s, Ack(s.exec, s.acks[0]), s.acks[1..], start, done);
    case Take =>
      TakeOk(s, start, done);
    case Try(ok) =>
      TryOk(s, maxRetries, ok, start, done);
    case TryUnordered(r, ok) =>
      BackgroundOk(s, maxRetries, r, ok, start, done);
  }

  lemma ExecInv<P>(s: System<P>, start: U64, done: set<U64>)
    requires RelayInv(s, start, done)
    ensures Inv(s.exec, start, done)
  {
  }

  lemma AcksApart<P>(s: System<P>, exec: Exec<P>, acks: seq<U64>, start: U64, done: set<U64>)
    requires RelayInv(s.(exec := exec), start, done)
    ensures RelayInv(s.(exec := exec, acks := acks), start, done)
  {
  }

  lemma AckKeeps<P>(x: Exec<P>, nonce: U64, start: U64, done: set<U64>)
    requires Inv(x, start, done)
    ensures Inv(Ack(x, nonce), start, done) && Ack(x, nonce).sent == x.sent
  {
  }

  // ---- Every run ----

  ghost function SysDoneIn<P>(events: seq<SysEvent<P>>): set<U64> {
    if events == [] then {} else SysDoneIn(events[..|events| - 1]) + SysDone(events[|events| - 1])
  }

  lemma {:induction false} SysOk<P>(start: U64, maxRetries: U32, events: seq<SysEvent<P>>, missing: U64)
    requires CanRun(start, maxRetries, events) && start <= missing && missing !in SysDoneIn(events)
    ensures RelayInv(SysAfter(start, maxRetries, events), start, SysDoneIn(events))
  {
    hide RelayInv, SysStep, CanHappen;
    if events == [] {
      InitOk<P>(start);
    } else {
      var n := |events| - 1;
      SysOk(start, maxRetries, events[..n], missing);
      SysStepOk(SysAfter(start, maxRetries, events[..n]), maxRetries, events[n],
                start, SysDoneIn(events[..n]), missing);
    }
  }

  lemma InitOk<P>(start: U64)
    ensures RelayInv<P>(Init(start), start, {})
  {
    StartOk<P>(start);
    var s := Init<P>(start);
    assert s.exec.sent[..0] == [];
  }

  /** The relay actor receives ordered nonces start, start + 1, ... once each, waits for one
      at a time, includes them in strictly rising order, and touches none before all its
      predecessors are acknowledged or dead. */
  lemma {:induction false} OrderedThroughBoth<P>(start: U64, maxRetries: U32, events: seq<SysEvent<P>>)
    requires CanRun(start, maxRetries, events) && Incomplete(start, SysDoneIn(events))
    ensures var s := SysAfter(start, maxRetries, events);
      && s.taken <= |s.exec.sent|
      && OrderedNonces(s.exec.sent) == Upto(start, s.exec.next)
      && OrderedNonces(s.exec.sent[..s.taken]) == Upto(start, Received(s, start)) && Received(s, start) <= s.exec.next
      && InTurn(s.log, start)
      && Rising(Inclusions(s.log), Received(s, start))
  {
    hide SysAfter, SysDoneIn, CanRun, OrderedNonces, Upto, InTurn, Inclusions;
    var missing: U64 :| start <= missing && missing !in SysDoneIn(events);
    SysOk(start, maxRetries, events, missing);
    var s := SysAfter(start, maxRetries, events);
    var sent := s.exec.sent;
    assert sent == sent[..s.taken] + sent[s.taken..];
    OrderedAppend(sent[..s.taken], sent[s.taken..]);
    SentUpto(s.exec, start, SysDoneIn(events));
    UptoLength(start, s.exec.next);
  }

  /** So the acknowledgement (or the dead letter) of n comes before anything of n + 1. */
  lemma {:induction false} SettledBefore<P>(log: seq<LogEntry<P>>, start: U64, i: nat, n: int)
    requires InTurn(log, start) && i < |log| && log[i].job.ordered && start <= n < log[i].job.nonce
    ensures SettledIn(log[..i], n)
  {
    var k := |log| - 1;
    if i < k {
      SettledBefore(log[..k], start, i, n);
      assert log[..k][..i] == log[..i];
    }
  }

  // ---- The relay actor's attempts are the retry loop ----

  ghost function TryAll<P>(s: System<P>, maxRetries: U32, results: seq<bool>): System<P>
    decreases |results|
  {
    if results == [] || s.current.None? then s
    else TryAll(TryCurrent(s, maxRetries, results[0]), maxRetries, results[1..])
  }

  // The log entries of one job's attempts.
  ghost function AttemptsLog<P>(job: Job<P>, results: seq<bool>): seq<LogEntry<P>> {
    if results == [] then [] else [Attempted(job, results[0])] + AttemptsLog(job, results[1..])
  }

  /** Attempt after attempt, the actor follows the retry loop: it keeps the job while that
      goes on, acknowledges it exactly if it gets included, and else leaves it to the dead
      letter queue. */
  lemma {:induction false} TriesAreRelay<P>(s: System<P>, maxRetries: U32, results: seq<bool>)
    requires s.current.Some?
    requires |results| == Relay(s.current.value.i, maxRetries, results).attempts
    ensures var r := s.current.value;
      var outcome, t := Relay(r.i, maxRetries, results), TryAll(s, maxRetries, results);
      var tried := s.log + AttemptsLog(r.job, results);
      && t.exec == s.exec && t.taken == s.taken && t.background == s.background
      && match outcome.verdict
         case Again(i) => t.current == Some(Relaying(r.job, i)) && t.acks == s.acks && t.log == tried
         case Included => t.current.None? && t.acks == s.acks + [r.job.nonce] && t.log == tried + [Acknowledged(r.job)]
         case GivenUp => t.current.None? && t.acks == s.acks && t.log == tried + [DeadLettered(r.job)]
    decreases |results|
  {
    hide Judge;
    var r := s.current.value;
    if results != [] {
      var u := TryCurrent(s, maxRetries, results[0]);
      var v := Judge(r.i, maxRetries, results[0]);
      if v.Again? {
        TriesAreRelay(u, maxRetries, results[1..]);
        assert s.log + [Attempted(r.job, results[0])] + AttemptsLog(r.job, results[1..])
            == s.log + AttemptsLog(r.job, results);
      } else {
        assert results[1..] == [];
        assert AttemptsLog(r.job, results) == [Attempted(r.job, results[0])];
      }
    }
  }
}
