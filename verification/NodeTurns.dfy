/** What the batcher takes and when it gives up: each batch ends at the processed index read
    for it, and only three failed tries stop the batcher. */
module NodeTurns {
  import opened Api
  import opened ClobSpec
  import opened NodeSpec
  import opened NodeLog
  import opened NodeRuns

  // ---- The log is what was received ----

  ghost function LastReceived(events: seq<NodeEvent>): Option<Request> {
    if events == [] then None
    else
      var last := events[|events| - 1];
      if last.Receive? then Some(last.request) else LastReceived(events[..|events| - 1])
  }

  /** The requests whose results were persisted: at each such moment, the one received last. */
  ghost function PersistedIn(events: seq<NodeEvent>): seq<Request> {
    if events == [] then []
    else
      var before, last := events[..|events| - 1], events[|events| - 1];
      PersistedIn(before)
        + if last.Persist? && LastReceived(before).Some? then [LastReceived(before).value] else []
  }

  ghost predicate LogIs(n: Node, received: Option<Request>, persisted: seq<Request>) {
    && (n.engine.Logged? ==> received == Some(n.engine.request))
    && |persisted| == Processed(n.db) && Has(n.db.requests, 1, |persisted|)
    && forall i :: 1 <= i <= |persisted| ==> n.db.requests[i] == persisted[i - 1]
  }

  lemma LogStep(n: Node, e: NodeEvent, received: Option<Request>, persisted: seq<Request>)
    requires CanDo(n, e) && DbOk(n.db) && EngineOk(n.db, n.engine) && LogIs(n, received, persisted)
    ensures var received' := if e.Receive? then Some(e.request) else received;
      var persisted' := persisted + if e.Persist? && received.Some? then [received.value] else [];
      LogIs(Do(n, e), received', persisted')
  {
    hide Tick, DbOk, EngineOk;
    EngineIndex(n);
    assert persisted + [] == persisted;
  }

  // Where the engine stands.
  lemma EngineIndex(n: Node)
    requires DbOk(n.db) && EngineOk(n.db, n.engine)
    ensures n.engine.Ready? ==> n.engine.index == Processed(n.db)
    ensures n.engine.Logged? ==>
      var i := n.engine.index;
      i == Processed(n.db) + 1 && i in n.db.requests.Keys && n.db.requests[i] == n.engine.request
  {
    hide EntryOk;
  }

  /** A crash touches nothing but the engine, and the restart resumes after the request
      processed last; one logged but not processed is overwritten by the next. */
  lemma {:induction false} RestartTells(n: Node)
    requires NodeOk(n) && CanDo(n, Crash)
    ensures var down := Do(n, Crash);
      && down == n.(engine := Down) && CanDo(down, StartEngine)
      && var up := Do(down, StartEngine);
        && up.db == n.db && up.engine.Ready? && up.engine.index == Processed(n.db)
        && up.engine.state == StateAt(n.db.requests, Processed(n.db))
  {
    hide Tick, StateAt, Slice, EntryOk, BatchOk, BatcherOk, Adjacent;
    ProcessedState(n.db);
    if Processed(n.db) == 0 {
      assert n.db.states[0 := GENESIS] == n.db.states;
    }
  }

  lemma {:induction false} LogHolds(events: seq<NodeEvent>)
    requires Runs(events)
    ensures LogIs(NodeAfter(events), LastReceived(events), PersistedIn(events))
  {
    hide Do, CanDo, LogIs, NodeOk;
    if events == [] {
      NothingLogged();
    } else {
      var m := |events| - 1;
      LogHolds(events[..m]);
      AlwaysOk(events[..m]);
      DbAndEngine(NodeAfter(events[..m]));
      LogStep(NodeAfter(events[..m]), events[m], LastReceived(events[..m]), PersistedIn(events[..m]));
    }
  }

  lemma DbAndEngine(n: Node)
    requires NodeOk(n)
    ensures DbOk(n.db) && EngineOk(n.db, n.engine)
  {
  }

  lemma NothingLogged()
    ensures LogIs(FRESH_NODE, None, [])
  {
  }

  /** In every run, crashes included, the log up to the processed index is exactly the
      requests received and then persisted, in order, none twice and none altered. */
  lemma {:induction false} LogIsReceived(events: seq<NodeEvent>)
    requires Runs(events)
    ensures var db, persisted := NodeAfter(events).db, PersistedIn(events);
      && |persisted| == Processed(db) && Has(db.requests, 1, |persisted|)
      && Slice(db.requests, 1, Processed(db)) == persisted
  {
    hide NodeAfter, PersistedIn, Runs;
    LogHolds(events);
    SliceIs(NodeAfter(events).db.requests, PersistedIn(events), |PersistedIn(events)|);
  }

  lemma {:induction false} SliceIs(requests: map<nat, Request>, log: seq<Request>, k: nat)
    requires k <= |log| && Has(requests, 1, |log|) && forall i :: 1 <= i <= |log| ==> requests[i] == log[i - 1]
    ensures Slice(requests, 1, k) == log[..k]
  {
    if k > 0 {
      SliceIs(requests, log, k - 1);
    }
  }

  // ---- Where batches end ----

  /** Having read its bounds, the batcher goes on exactly if something new is processed, and
      then takes all of it. */
  lemma {:induction false} ReadLastTells(n: Node)
    requires CanDo(n, ReadLast)
    ensures var b, n' := n.batcher, Do(n, ReadLast);
      && n'.db == n.db && n'.batches == n.batches
      && (n'.batcher == Idle(b.nonce) <==> b.first > n.db.processed.value)
      && (n'.batcher != Idle(b.nonce) ==> n'.batcher == HasRange(b.nonce, b.first, n.db.processed.value))
  {
  }

  // Event i read the processed index `last` for batch number k.
  ghost predicate ReadAt(events: seq<NodeEvent>, i: nat, k: nat, last: nat) {
    && i < |events| && events[i] == ReadLast
    && NodeAfter(events[..i]).db.processed == Some(last)
    && |NodeAfter(events[..i]).batches| == k
  }

  lemma ReadBefore(events: seq<NodeEvent>, i: nat, k: nat, last: nat)
    requires events != [] && ReadAt(events[..|events| - 1], i, k, last)
    ensures ReadAt(events, i, k, last)
  {
    assert events[..|events| - 1][..i] == events[..i];
  }

  ghost predicate WasRead(events: seq<NodeEvent>, k: nat, last: nat) {
    exists i :: ReadAt(events, i, k, last)
  }

  ghost predicate EndsRead(events: seq<NodeEvent>, n: Node) {
    && (n.batcher.HasRange? || n.batcher.Reading? ==> WasRead(events, |n.batches|, n.batcher.last))
    && forall k :: 0 <= k < |n.batches| ==> WasRead(events, k, n.batches[k].last)
  }

  lemma StillRead(events: seq<NodeEvent>, k: nat, last: nat)
    requires events != [] && WasRead(events[..|events| - 1], k, last)
    ensures WasRead(events, k, last)
  {
    var i :| ReadAt(events[..|events| - 1], i, k, last);
    ReadBefore(events, i, k, last);
  }

  // How a step moves the batcher's range and the batches.
  lemma RangeStep(n: Node, e: NodeEvent)
    requires CanDo(n, e)
    ensures var n' := Do(n, e);
      && (n'.batcher.HasRange? || n'.batcher.Reading? ==>
            && n'.batches == n.batches
            && (if e.ReadLast? then n.db.processed == Some(n'.batcher.last)
                else (n.batcher.HasRange? || n.batcher.Reading?) && n'.batcher.last == n.batcher.last))
      && (if e.Build? then n.batcher.Reading? && |n'.batches| == |n.batches| + 1
                           && n'.batches[|n.batches|].last == n.batcher.last
                           && n'.batches[..|n.batches|] == n.batches
          else n'.batches == n.batches)
  {
    hide Tick;
  }

  lemma {:induction false} EndsAlwaysRead(events: seq<NodeEvent>)
    requires Runs(events)
    ensures EndsRead(events, NodeAfter(events))
  {
    hide Do, CanDo, WasRead;
    if events != [] {
      var m := |events| - 1;
      var n, n' := NodeAfter(events[..m]), NodeAfter(events);
      EndsAlwaysRead(events[..m]);
      RangeStep(n, events[m]);
      forall k | 0 <= k < |n'.batches|
        ensures WasRead(events, k, n'.batches[k].last)
      {
        if k < |n.batches| {
          assert n'.batches[k] == n.batches[k];
        }
        StillRead(events, k, n'.batches[k].last);
      }
      if n'.batcher.HasRange? || n'.batcher.Reading? {
        if events[m].ReadLast? {
          JustRead(events);
        } else {
          StillRead(events, |n.batches|, n'.batcher.last);
        }
      }
    }
  }

  lemma JustRead(events: seq<NodeEvent>)
    requires events != [] && events[|events| - 1].ReadLast?
    requires NodeAfter(events[..|events| - 1]).db.processed.Some?
    ensures var n := NodeAfter(events[..|events| - 1]);
      WasRead(events, |n.batches|, n.db.processed.value)
  {
    var n := NodeAfter(events[..|events| - 1]);
    assert ReadAt(events, |events| - 1, |n.batches|, n.db.processed.value);
  }

  /** In every run each batch ends at the processed index that the batcher read while it had
      built just the batches before: nothing processed by then is left for a later one. */
  lemma {:induction false} BatchTakesAll(events: seq<NodeEvent>, k: nat)
    requires Runs(events) && k < |NodeAfter(events).batches|
    ensures exists i :: ReadAt(events, i, k, NodeAfter(events).batches[k].last)
  {
    hide NodeAfter, Runs, ReadAt;
    EndsAlwaysRead(events);
    assert WasRead(events, k, NodeAfter(events).batches[k].last);
  }

  // ---- When the batcher stops ----

  /** How many tries have failed since the last batch was built. */
  ghost function Failures(events: seq<NodeEvent>): nat {
    if events == [] then 0
    else
      var last := events[|events| - 1];
      if last.Build? then 0
      else Failures(events[..|events| - 1]) + if last.Submit? && !last.ok then 1 else 0
  }

  ghost predicate TriesOk(n: Node, failures: nat) {
    match n.batcher
    case Submitting(_, tries) => tries == failures < 3
    case Stopped => failures == 3
    case Waiting => failures < 3
    case Idle(_) => failures < 3
    case HasFirst(_, _) => failures < 3
    case HasRange(_, _, _) => failures < 3
    case Reading(_, _, _, _, _) => failures < 3
    case Accepted(_) => failures < 3
  }

  lemma TriesStep(n: Node, e: NodeEvent, failures: nat)
    requires CanDo(n, e) && TriesOk(n, failures)
    ensures TriesOk(Do(n, e), if e.Build? then 0 else failures + if e.Submit? && !e.ok then 1 else 0)
  {
    hide Tick;
  }

  lemma {:induction false} TriesHold(events: seq<NodeEvent>)
    requires Runs(events)
    ensures TriesOk(NodeAfter(events), Failures(events))
  {
    hide Do, CanDo, TriesOk;
    if events == [] {
      NoTries();
    } else {
      var m := |events| - 1;
      TriesHold(events[..m]);
      TriesStep(NodeAfter(events[..m]), events[m], Failures(events[..m]));
    }
  }

  lemma NoTries()
    ensures TriesOk(FRESH_NODE, 0)
  {
  }

  /** In every run the batcher has stopped if and only if the batch built last has failed
      three times; before that a failed try is followed by another one. */
  lemma {:induction false} StoppedIff(events: seq<NodeEvent>)
    requires Runs(events)
    ensures NodeAfter(events).batcher.Stopped? <==> Failures(events) == 3
    ensures Failures(events) <= 3
    ensures events != [] && events[|events| - 1].Submit? ==>
      var n, last := NodeAfter(events), events[|events| - 1];
      if last.ok then n.batcher.Accepted?
      else if Failures(events) < 3 then n.batcher.Submitting?
      else n.batcher.Stopped?
  {
    hide Runs, Tick;
    TriesHold(events);
    if events != [] && events[|events| - 1].Submit? {
      SubmitEnds(events);
    }
  }

  lemma SubmitEnds(events: seq<NodeEvent>)
    requires Runs(events) && events != [] && events[|events| - 1].Submit?
    ensures var n, last := NodeAfter(events), events[|events| - 1];
      if last.ok then n.batcher.Accepted? else n.batcher.Submitting? || n.batcher.Stopped?
  {
    hide Tick;
  }

  // ---- What reaches the coprocessor ----

  /** The batches of the tries that reached the coprocessor, failed ones included. */
  ghost function ReachedIn(events: seq<NodeEvent>): seq<Batch> {
    if events == [] then []
    else
      var n, last := NodeAfter(events[..|events| - 1]), events[|events| - 1];
      ReachedIn(events[..|events| - 1])
        + if last.Submit? && last.reached && n.batcher.Submitting? then [n.batcher.batch] else []
  }

  lemma ReachedStep(n: Node, e: NodeEvent)
    requires CanDo(n, e)
    ensures Do(n, e).delivered
         == n.delivered + if e.Submit? && e.reached && n.batcher.Submitting? then [n.batcher.batch] else []
  {
    hide Tick;
  }

  /** A try is delivered exactly if it reaches the coprocessor, whatever it reports. */
  lemma {:induction false} DeliveredAre(events: seq<NodeEvent>)
    requires Runs(events)
    ensures NodeAfter(events).delivered == ReachedIn(events)
  {
    hide Do, CanDo;
    if events != [] {
      var m := |events| - 1;
      DeliveredAre(events[..m]);
      ReachedStep(NodeAfter(events[..m]), events[m]);
    }
  }

  /** The batcher's start leaves the next batch alone if one is set, and else begins at 1. */
  lemma {:induction false} InitTells(n: Node)
    requires CanDo(n, InitBatcher)
    ensures var n' := Do(n, InitBatcher);
      && n'.db == n.db.(nextBatch := if n.db.nextBatch.Some? then n.db.nextBatch else Some(1))
      && n'.batcher == Idle(1) && n'.engine == n.engine && n'.batches == n.batches && n'.delivered == n.delivered
  {
  }

  // ---- The steps without interruption ----

  // Reading the requests of a range, one after the other.
  ghost function ReadAll(n: Node): Node
    requires n.batcher.Reading? && Has(n.db.requests, n.batcher.first, n.batcher.last)
    decreases n.batcher.last + 1 - n.batcher.first - |n.batcher.requests|
  {
    if n.batcher.first + |n.batcher.requests| > n.batcher.last then n else ReadAll(Do(n, ReadRequest))
  }

  lemma {:induction false} ReadAllOk(n: Node)
    requires NodeOk(n) && n.batcher.Reading? && Has(n.db.requests, n.batcher.first, n.batcher.last)
    ensures var n', b := ReadAll(n), n.batcher;
      && NodeOk(n') && CanDo(n', Build) && n'.db == n.db && n'.batches == n.batches
      && n'.batcher == b.(requests := n'.batcher.requests)
    decreases n.batcher.last + 1 - n.batcher.first - |n.batcher.requests|
  {
    hide NodeOk;
    if n.batcher.first + |n.batcher.requests| <= n.batcher.last {
      DoOk(n, ReadRequest);
      ReadAllOk(Do(n, ReadRequest));
    }
  }

  /** What the batcher's turn comes to when nothing interrupts it: one batch of everything
      processed and not yet batched, under the next nonce, with the state before it. */
  lemma {:induction false} WholeTurn(n: Node)
    requires NodeOk(n) && n.batcher.Idle? && n.db.processed.Some?
    requires EndOf(n.batches, |n.batches|) <= n.db.processed.value
    ensures CanDo(n, ReadFirst)
    ensures var a := Do(n, ReadFirst); CanDo(a, ReadLast) && CanDo(Do(a, ReadLast), ReadState)
    ensures var r := Do(Do(Do(n, ReadFirst), ReadLast), ReadState);
      && r.batcher.Reading? && Has(r.db.requests, r.batcher.first, r.batcher.last)
      && CanDo(ReadAll(r), Build)
      && var built := Do(ReadAll(r), Build);
        && |built.batches| == |n.batches| + 1 && BatchOk(n.db, built.batches[|n.batches|])
        && built.batcher == Submitting(built.batches[|n.batches|], 0)
        && built.batches[|n.batches|].first == EndOf(n.batches, |n.batches|)
        && built.batches[|n.batches|].last == n.db.processed.value
        && built.batches[|n.batches|].nonce == |n.batches| + 1
  {
    hide Tick, NodeOk, ReadAll;
    TurnStarts(n);
    var r := Do(Do(Do(n, ReadFirst), ReadLast), ReadState);
    ReadAllOk(r);
    Built(ReadAll(r));
  }

  lemma TurnStarts(n: Node)
    requires NodeOk(n) && n.batcher.Idle? && n.db.processed.Some?
    requires EndOf(n.batches, |n.batches|) <= n.db.processed.value
    ensures CanDo(n, ReadFirst)
    ensures var a := Do(n, ReadFirst); CanDo(a, ReadLast) && CanDo(Do(a, ReadLast), ReadState)
    ensures var r := Do(Do(Do(n, ReadFirst), ReadLast), ReadState);
      && NodeOk(r) && r.batcher.Reading? && Has(r.db.requests, r.batcher.first, r.batcher.last)
      && r.db == n.db && r.batches == n.batches && r.batcher.last == n.db.processed.value
  {
    hide Tick, EngineOk, Adjacent, BatchOk, StateAt, Slice;
    EndProcessed(n);
    var a := Do(n, ReadFirst);
    DoOk(n, ReadFirst);
    DoOk(a, ReadLast);
    EntryBefore(n.db, EndOf(n.batches, |n.batches|));
    DoOk(Do(a, ReadLast), ReadState);
    AllLogged(n.db, n.db.processed.value);
  }

  lemma EntryBefore(db: Db, first: nat)
    requires DbOk(db) && 1 <= first <= Processed(db)
    ensures first - 1 in db.states.Keys
  {
    if first > 1 {
      assert EntryOk(db, first - 1);
    }
  }
}
