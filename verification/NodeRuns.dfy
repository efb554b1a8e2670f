/** Every run of the node keeps log, states and batches consistent. */
module NodeRuns {
  import opened Api
  import opened ClobSpec
  import opened NodeSpec
  import opened NodeLog

  // ---- Batcher steps ----

  // Where the next batch starts is nobody else's business.
  lemma NextBatchFree(db: Db, next: nat)
    requires DbOk(db)
    ensures var db' := db.(nextBatch := Some(next));
      DbOk(db') && Keeps(db, db') && forall engine :: EngineOk(db, engine) ==> EngineOk(db', engine)
  {
    hide Tick, Run, Slice, StateAt;
    var db' := db.(nextBatch := Some(next));
    forall i | 1 <= i <= Processed(db)
      ensures SameEntry(db, db', i) && EntryOk(db', i)
    {
      assert EntryOk(db, i);
    }
  }

  lemma {:induction false} NextBatchOk(n: Node, next: nat, batcher: Batcher)
    requires NodeOk(n)
    requires BatcherOk(n.(db := n.db.(nextBatch := Some(next)), batcher := batcher))
    ensures NodeOk(n.(db := n.db.(nextBatch := Some(next)), batcher := batcher))
  {
    hide Tick, Run, Slice, StateAt, BatcherOk, DbOk, EngineOk, BatchOk;
    var db' := n.db.(nextBatch := Some(next));
    NextBatchFree(n.db, next);
    forall k | 0 <= k < |n.batches|
      ensures BatchOk(db', n.batches[k])
    {
      BatchSame(n.db, db', n.batches[k]);
    }
  }

  // The end of the batches so far has been executed.
  lemma EndProcessed(n: Node)
    requires NodeOk(n)
    ensures 1 <= EndOf(n.batches, |n.batches|) <= Processed(n.db) + 1
  {
    hide DbOk, EngineOk, BatcherOk, Slice, StateAt;
    var k := |n.batches|;
    if k > 0 {
      assert BatchOk(n.db, n.batches[k - 1]);
    }
  }

  lemma ReadLastOk(n: Node)
    requires n.batcher.HasFirst? && n.db.processed.Some? && NodeOk(n)
    ensures NodeOk(DoReadLast(n))
  {
    hide DbOk, EngineOk, BatchOk;
    EndProcessed(n);
  }

  lemma {:induction false} ReadStateOk(n: Node)
    requires NodeOk(n) && CanDo(n, ReadState)
    ensures NodeOk(Do(n, ReadState))
  {
    hide EngineOk, BatchOk, Tick, Adjacent;
    EndProcessed(n);
    var b := n.batcher;
    AllLogged(n.db, b.last);
    if b.first > 1 {
      assert EntryOk(n.db, b.first - 1);
    }
  }

  lemma AllLogged(db: Db, last: nat)
    requires DbOk(db) && last <= Processed(db)
    ensures Has(db.requests, 1, last)
  {
  }

  lemma {:induction false} ReadRequestOk(n: Node)
    requires NodeOk(n) && CanDo(n, ReadRequest)
    ensures NodeOk(Do(n, ReadRequest))
  {
    hide DbOk, EngineOk, BatchOk, StateAt, Adjacent, EndOf;
    var b := n.batcher;
    var read := b.requests + [n.db.requests[b.first + |b.requests|]];
    assert read == Slice(n.db.requests, b.first, b.first + |read| - 1);
  }

  lemma {:induction false} Built(n: Node)
    requires n.batcher.Reading? && n.batcher.first + |n.batcher.requests| > n.batcher.last
    requires NodeOk(n)
    ensures var b := n.batcher;
      && BatchOk(n.db, Batch(b.nonce, b.first, b.last, b.state, b.requests))
      && b.first == EndOf(n.batches, |n.batches|) && b.nonce == |n.batches| + 1
  {
    hide DbOk, EngineOk, Slice, StateAt, Adjacent, EndOf;
  }

  lemma {:induction false} BuildOk(n: Node)
    requires n.batcher.Reading? && n.batcher.first + |n.batcher.requests| > n.batcher.last
    requires NodeOk(n)
    ensures NodeOk(DoBuild(n))
  {
    hide DbOk, EngineOk, Slice, StateAt, BatchOk;
    Built(n);
    var b := n.batcher;
    var batches' := n.batches + [Batch(b.nonce, b.first, b.last, b.state, b.requests)];
    forall k | 0 <= k < |batches'|
      ensures EndOf(batches', k) == EndOf(n.batches, k)
    {
    }
  }

  lemma OneMoreDelivered(delivered: seq<Batch>, batches: seq<Batch>, k: nat)
    requires k < |batches| && forall i :: 0 <= i < |delivered| ==> delivered[i] in batches
    ensures forall i :: 0 <= i < |delivered + [batches[k]]| ==> (delivered + [batches[k]])[i] in batches
  {
  }

  // A step that only moves the batcher on.
  lemma BatcherOnly(n: Node, n': Node)
    requires NodeOk(n) && n'.db == n.db && n'.engine == n.engine && n'.batches == n.batches
    requires BatcherOk(n') && forall i :: 0 <= i < |n'.delivered| ==> n'.delivered[i] in n.batches
    ensures NodeOk(n')
  {
    hide DbOk, EngineOk, BatchOk, BatcherOk, Adjacent;
  }

  lemma SubmitBatcher(n: Node, reached: bool, ok: bool)
    requires n.batcher.Submitting? && BatcherOk(n)
    ensures var n' := DoSubmit(n, reached, ok);
      && BatcherOk(n') && |n.batches| > 0
      && n'.delivered == if reached then n.delivered + [n.batches[|n.batches| - 1]] else n.delivered
  {
    hide EndOf, Slice, StateAt, Has;
  }

  lemma {:induction false} SubmitOk(n: Node, reached: bool, ok: bool)
    requires n.batcher.Submitting? && NodeOk(n)
    ensures NodeOk(DoSubmit(n, reached, ok))
  {
    hide DbOk, EngineOk, BatchOk, BatcherOk, Adjacent;
    SubmitBatcher(n, reached, ok);
    OneMoreDelivered(n.delivered, n.batches, |n.batches| - 1);
    BatcherOnly(n, DoSubmit(n, reached, ok));
  }

  lemma LastBatch(batches: seq<Batch>)
    requires Adjacent(batches) && batches != []
    ensures var last := batches[|batches| - 1];
      last.nonce == |batches| && EndOf(batches, |batches|) == last.last + 1
  {
  }

  lemma {:induction false} CommitOk(n: Node)
    requires n.batcher.Accepted? && NodeOk(n)
    ensures NodeOk(DoCommit(n))
  {
    hide DbOk, EngineOk, BatchOk, Adjacent, EndOf;
    var batch := n.batcher.batch;
    LastBatch(n.batches);
    NextBatchOk(n, batch.last + 1, Idle(batch.nonce + 1));
  }

  lemma InitBatcherOk(n: Node)
    requires n.batcher.Waiting? && NodeOk(n)
    ensures NodeOk(DoInit(n))
  {
    hide DbOk, EngineOk, BatchOk;
    NextBatchOk(n, INIT_INDEX, Idle(1));
  }

  lemma ReadFirstOk(n: Node)
    requires NodeOk(n) && CanDo(n, ReadFirst)
    ensures NodeOk(Do(n, ReadFirst))
  {
    hide DbOk, EngineOk, BatchOk, Adjacent;
  }

  // ---- All steps ----

  lemma KeepsRefl(db: Db)
    requires DbOk(db)
    ensures Keeps(db, db)
  {
    hide Tick, StateAt;
    forall i | 1 <= i <= Processed(db)
      ensures SameEntry(db, db, i)
    {
      assert EntryOk(db, i);
    }
  }

  lemma EngineOkStep(n: Node, e: NodeEvent)
    requires NodeOk(n) && CanDo(n, e) && (e.StartEngine? || e.Receive? || e.Persist? || e.Crash?)
    ensures NodeOk(Do(n, e)) && Keeps(n.db, Do(n, e).db)
  {
    hide DbOk, EngineOk, BatchOk, BatcherOk, Adjacent, Keeps, Tick;
    match e
    case StartEngine =>
      StartKeeps(n);
      EngineStepOk(n, DoStart(n));
    case Receive(request) =>
      ReceiveKeeps(n, request);
      EngineStepOk(n, DoReceive(n, request));
    case Persist =>
      PersistKeeps(n);
      EngineStepOk(n, DoPersist(n));
    case Crash =>
      CrashKeeps(n);
      EngineStepOk(n, n.(engine := Down));
  }

  lemma CrashKeeps(n: Node)
    requires DbOk(n.db)
    ensures Keeps(n.db, n.db) && EngineOk(n.db, Down)
  {
    KeepsRefl(n.db);
  }

  lemma BatcherOkStep(n: Node, e: NodeEvent)
    requires NodeOk(n) && CanDo(n, e) && !(e.StartEngine? || e.Receive? || e.Persist? || e.Crash?)
    ensures NodeOk(Do(n, e)) && Keeps(n.db, Do(n, e).db)
  {
    hide DbOk, EngineOk, BatchOk, BatcherOk, Adjacent, Keeps;
    KeepsRefl(n.db);
    match e
    case InitBatcher =>
      InitBatcherOk(n);
      NextBatchFree(n.db, INIT_INDEX);
    case ReadFirst => ReadFirstOk(n);
    case ReadLast => ReadLastOk(n);
    case ReadState => ReadStateOk(n);
    case ReadRequest => ReadRequestOk(n);
    case Build => BuildOk(n);
    case Submit(reached, ok) => SubmitOk(n, reached, ok);
    case Commit =>
      CommitOk(n);
      NextBatchFree(n.db, n.batcher.batch.last + 1);
  }

  lemma DoOk(n: Node, e: NodeEvent)
    requires NodeOk(n) && CanDo(n, e)
    ensures NodeOk(Do(n, e)) && Keeps(n.db, Do(n, e).db) && n.batches <= Do(n, e).batches
  {
    hide NodeOk, Keeps, CanDo, Tick;
    if e.StartEngine? || e.Receive? || e.Persist? || e.Crash? {
      EngineOkStep(n, e);
    } else {
      BatcherOkStep(n, e);
    }
  }

  lemma FreshOk()
    ensures NodeOk(FRESH_NODE)
  {
  }

  lemma {:induction false} AlwaysOk(events: seq<NodeEvent>)
    requires Runs(events)
    ensures NodeOk(NodeAfter(events))
  {
    hide NodeOk, Do, CanDo;
    if events == [] {
      FreshOk();
    } else {
      var n := |events| - 1;
      AlwaysOk(events[..n]);
      DoOk(NodeAfter(events[..n]), events[n]);
    }
  }

  /** In every reachable state, through crashes and restarts: up to the processed index
      every stored state is the fold of `tick` over the stored log, with the responses and
      diffs of that fold; seen is processed or one more; batches are adjacent ranges from 1
      on, numbered from 1, each with the state before its range and the log of its range. */
  lemma {:induction false} LogConsistent(events: seq<NodeEvent>)
    requires Runs(events)
    ensures var n := NodeAfter(events);
      var p := Processed(n.db);
      && (forall i :: 1 <= i <= p ==> EntryOk(n.db, i))
      && (if n.db.seen.Some? then p <= n.db.seen.value <= p + 1 else p == 0)
      && Adjacent(n.batches)
      && (forall k :: 0 <= k < |n.batches| ==> BatchOk(n.db, n.batches[k]))
      && (forall i :: 0 <= i < |n.delivered| ==> n.delivered[i] in n.batches)
  {
    hide EntryOk, Adjacent, BatchOk, EngineOk, BatcherOk, NodeAfter;
    AlwaysOk(events);
  }

  /** What has been processed never changes again. */
  lemma {:induction false} NeverChanges(events: seq<NodeEvent>, k: nat)
    requires Runs(events) && k <= |events|
    ensures Runs(events[..k])
    ensures Keeps(NodeAfter(events[..k]).db, NodeAfter(events).db)
    ensures NodeAfter(events[..k]).batches <= NodeAfter(events).batches
    decreases |events|
  {
    hide NodeOk, Do, CanDo, Keeps;
    if k == |events| {
      assert events[..k] == events;
      AlwaysOk(events);
      KeepsSelf(NodeAfter(events));
    } else {
      var n := |events| - 1;
      NeverChanges(events[..n], k);
      assert events[..n][..k] == events[..k];
      AlwaysOk(events[..n]);
      DoOk(NodeAfter(events[..n]), events[n]);
      KeepsTrans(NodeAfter(events[..k]).db, NodeAfter(events[..n]).db, NodeAfter(events).db);
    }
  }

  lemma KeepsSelf(n: Node)
    requires NodeOk(n)
    ensures Keeps(n.db, n.db)
  {
    KeepsRefl(n.db);
  }

  lemma KeepsTrans(a: Db, b: Db, c: Db)
    requires Keeps(a, b) && Keeps(b, c)
    ensures Keeps(a, c)
  {
    forall i | 1 <= i <= Processed(a)
      ensures SameEntry(a, c, i)
    {
      assert SameEntry(a, b, i) && SameEntry(b, c, i);
    }
  }
}
