/** How often a batch reaches the coprocessor. */
module NodeDelivery {
  import opened NodeSpec
  import opened NodeLog
  import opened NodeRuns

  ghost function Deliveries(n: Node, k: nat): nat
    requires k < |n.batches|
  {
    multiset(n.delivered)[n.batches[k]]
  }

  // Batches the batcher has moved past: their submission was reported a success.
  ghost function Settled(n: Node): int {
    if n.batcher.Submitting? || n.batcher.Accepted? || n.batcher.Stopped? then |n.batches| - 1 else |n.batches|
  }

  ghost predicate CountsOk(n: Node) {
    && (forall k :: 0 <= k < |n.batches| ==> Deliveries(n, k) <= SUBMIT_RETRIES)
    && (forall k :: 0 <= k < |n.batches| && k < Settled(n) ==> Deliveries(n, k) >= 1)
    && (n.batcher.Submitting? ==>
          |n.batches| > 0 && n.batcher.tries < SUBMIT_RETRIES && Deliveries(n, |n.batches| - 1) <= n.batcher.tries)
    && (n.batcher.Accepted? ==> |n.batches| > 0 && Deliveries(n, |n.batches| - 1) >= 1)
  }

  // Their nonces tell batches apart.
  lemma BatchesDiffer(batches: seq<Batch>, j: nat, k: nat)
    requires Adjacent(batches) && j < |batches| && k < |batches| && j != k
    ensures batches[j] != batches[k]
  {
    assert batches[j].nonce == j + 1 && batches[k].nonce == k + 1;
  }

  lemma OneMoreCount(delivered: seq<Batch>, batch: Batch, other: Batch)
    ensures multiset(delivered + [batch])[other] == multiset(delivered)[other] + if other == batch then 1 else 0
  {
  }

  lemma SubmitCounts(n: Node, reached: bool, ok: bool)
    requires n.batcher.Submitting? && Adjacent(n.batches) && BatcherOk(n) && CountsOk(n) && (ok ==> reached)
    ensures CountsOk(DoSubmit(n, reached, ok))
  {
    hide Slice, StateAt, Adjacent;
    var n' := DoSubmit(n, reached, ok);
    var last := |n.batches| - 1;
    forall k | 0 <= k < |n.batches|
      ensures Deliveries(n', k) == Deliveries(n, k) + if reached && k == last then 1 else 0
    {
      OneMoreCount(n.delivered, n.batches[last], n.batches[k]);
      if k != last {
        BatchesDiffer(n.batches, k, last);
      }
    }
  }

  lemma NewBatchCount(n: Node, batch: Batch)
    requires NodeOk(n) && batch.nonce == |n.batches| + 1
    ensures multiset(n.delivered)[batch] == 0
  {
    hide DbOk, EngineOk, BatchOk, BatcherOk, EndOf;
    forall i | 0 <= i < |n.delivered|
      ensures n.delivered[i] != batch
    {
      assert n.delivered[i] in n.batches;
      var k :| 0 <= k < |n.batches| && n.batches[k] == n.delivered[i];
      assert n.batches[k].nonce == k + 1;
    }
    assert batch !in n.delivered;
  }

  lemma {:induction false} BuildCounts(n: Node)
    requires n.batcher.Reading? && n.batcher.first + |n.batcher.requests| > n.batcher.last
    requires NodeOk(n) && CountsOk(n)
    ensures CountsOk(DoBuild(n))
  {
    hide DbOk, EngineOk, BatchOk, NodeOk;
    Built(n);
    var b, n' := n.batcher, DoBuild(n);
    NewBatchCount(n, Batch(b.nonce, b.first, b.last, b.state, b.requests));
    forall k | 0 <= k < |n.batches|
      ensures Deliveries(n', k) == Deliveries(n, k)
    {
    }
  }

  // Every other step delivers nothing and builds nothing.
  lemma OtherCounts(n: Node, n': Node)
    requires CountsOk(n) && n'.batches == n.batches && n'.delivered == n.delivered
    requires !n'.batcher.Submitting? && (n'.batcher.Accepted? ==> n'.batcher == n.batcher)
    requires n.batcher == n'.batcher || n.batcher.Accepted? || !(n.batcher.Submitting? || n.batcher.Stopped?)
    ensures CountsOk(n')
  {
    forall k | 0 <= k < |n.batches|
      ensures Deliveries(n', k) == Deliveries(n, k)
    {
    }
  }

  lemma {:induction false} DoCounts(n: Node, e: NodeEvent)
    requires CanDo(n, e) && NodeOk(n) && CountsOk(n)
    ensures CountsOk(Do(n, e))
  {
    hide NodeOk, CountsOk, DoSubmit, DoBuild;
    if e.Submit? {
      AboutBatches(n);
      SubmitCounts(n, e.reached, e.ok);
    } else if e.Build? {
      BuildCounts(n);
    } else if n.batcher == Do(n, e).batcher && n.batcher.Submitting? {
      SameCounts(n, Do(n, e));
    } else {
      OtherCounts(n, Do(n, e));
    }
  }

  lemma AboutBatches(n: Node)
    requires NodeOk(n)
    ensures Adjacent(n.batches) && BatcherOk(n)
  {
  }

  lemma SameCounts(n: Node, n': Node)
    requires CountsOk(n) && n'.batches == n.batches && n'.delivered == n.delivered && n'.batcher == n.batcher
    ensures CountsOk(n')
  {
    forall k | 0 <= k < |n.batches|
      ensures Deliveries(n', k) == Deliveries(n, k)
    {
    }
  }

  /** In every run each batch reaches the coprocessor at most three times, and at least once
      before the next one is built. */
  lemma {:induction false} DeliveredOnceToThrice(events: seq<NodeEvent>, k: nat)
    requires Runs(events) && k < |NodeAfter(events).batches|
    ensures Deliveries(NodeAfter(events), k) <= 3
    ensures k < |NodeAfter(events).batches| - 1 ==> Deliveries(NodeAfter(events), k) >= 1
  {
    hide NodeAfter, Runs, Deliveries;
    CountsHold(events);
  }

  lemma {:induction false} CountsHold(events: seq<NodeEvent>)
    requires Runs(events)
    ensures CountsOk(NodeAfter(events))
  {
    hide NodeOk, CountsOk, Do, CanDo;
    if events == [] {
      FreshCounts();
    } else {
      var n := |events| - 1;
      CountsHold(events[..n]);
      AlwaysOk(events[..n]);
      DoCounts(NodeAfter(events[..n]), events[n]);
    }
  }

  lemma FreshCounts()
    ensures CountsOk(FRESH_NODE)
  {
  }
}
