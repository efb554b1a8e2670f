/** The node's log, states and batches stay consistent through crashes and restarts. */
module NodeLog {
  import opened Api
  import opened ClobSpec
  import opened DeltaAlgebra
  import opened NodeSpec

  // ---- The log as a sequence ----

  ghost predicate Has(requests: map<nat, Request>, first: nat, last: nat) {
    forall i :: first <= i <= last ==> i in requests.Keys
  }

  ghost function Slice(requests: map<nat, Request>, first: nat, last: nat): seq<Request>
    requires Has(requests, first, last)
    decreases last
  {
    if last < first || last == 0 then [] else Slice(requests, first, last - 1) + [requests[last]]
  }

  /** The fold of `tick` over the stored requests 1..index. */
  ghost function StateAt(requests: map<nat, Request>, index: nat): State
    requires Has(requests, 1, index)
  {
    Run(GENESIS, Slice(requests, 1, index))
  }

  lemma {:induction false} SliceSame(requests: map<nat, Request>, requests': map<nat, Request>, first: nat, last: nat)
    requires Has(requests, first, last) && Has(requests', first, last)
    requires forall i :: first <= i <= last ==> requests[i] == requests'[i]
    ensures Slice(requests, first, last) == Slice(requests', first, last)
  {
    if first <= last && last > 0 {
      SliceSame(requests, requests', first, last - 1);
    }
  }

  lemma {:induction false} SliceJoin(requests: map<nat, Request>, first: nat, mid: nat, last: nat)
    requires 1 <= first <= mid <= last + 1 && Has(requests, first, last)
    ensures Slice(requests, first, last) == Slice(requests, first, mid - 1) + Slice(requests, mid, last)
    decreases last
  {
    if mid <= last {
      SliceJoin(requests, first, mid, last - 1);
      assert Slice(requests, first, mid - 1) + (Slice(requests, mid, last - 1) + [requests[last]])
          == Slice(requests, first, mid - 1) + Slice(requests, mid, last - 1) + [requests[last]];
    } else {
      assert Slice(requests, first, mid - 1) + [] == Slice(requests, first, mid - 1);
    }
  }

  lemma NextState(requests: map<nat, Request>, index: nat)
    requires Has(requests, 1, index + 1)
    ensures StateAt(requests, index + 1) == Tick(StateAt(requests, index), requests[index + 1]).state
  {
    hide Tick;
    var before, r := Slice(requests, 1, index), requests[index + 1];
    assert (before + [r])[..|before + [r]| - 1] == before;
  }

  /** Executing a range from the state before it gives the state at its end. */
  lemma {:induction false} RangeState(requests: map<nat, Request>, first: nat, last: nat)
    requires 1 <= first <= last + 1 && Has(requests, 1, last)
    ensures Run(StateAt(requests, first - 1), Slice(requests, first, last)) == StateAt(requests, last)
  {
    hide Run;
    SliceJoin(requests, 1, first, last);
    RunCompose(GENESIS, Slice(requests, 1, first - 1), Slice(requests, first, last));
  }

  // ---- The invariant ----

  /** Up to the processed index every entry is there and is what ticking the log gives;
      seen is processed or one more. */
  ghost predicate DbOk(db: Db) {
    var p := Processed(db);
    && (db.processed.Some? ==> p >= 1)
    && (db.seen.None? ==> p == 0 && db.requests == map[])
    && (db.seen.Some? ==> p <= db.seen.value <= p + 1 && 1 <= db.seen.value)
    && (forall i :: i in db.requests.Keys <==> db.seen.Some? && 1 <= i <= db.seen.value)
    && (forall i :: i in db.states.Keys ==> i <= p)
    && (forall i :: 1 <= i <= p ==> EntryOk(db, i))
    && (0 in db.states.Keys ==> db.states[0] == GENESIS)
    && (p > 0 ==> 0 in db.states.Keys)
  }

  ghost predicate EntryOk(db: Db, i: nat)
    requires i >= 1
  {
    && Has(db.requests, 1, i)
    && i in db.states.Keys && i in db.responses.Keys && i in db.diffs.Keys
    && db.states[i] == StateAt(db.requests, i)
    && var t := Tick(StateAt(db.requests, i - 1), db.requests[i]);
      db.responses[i] == t.response && db.diffs[i] == t.diffs
  }

  ghost predicate EngineOk(db: Db, engine: Engine) {
    var p := Processed(db);
    match engine
    case Down => true
    case Ready(index, state) => index == p && 0 in db.states.Keys && p in db.states.Keys && state == db.states[p]
    case Logged(index, request, state) =>
      && index == p + 1 && 0 in db.states.Keys && p in db.states.Keys && state == db.states[p]
      && db.seen == Some(index) && index in db.requests.Keys && db.requests[index] == request
  }

  /** The batch is the log range first..last, executed already, from the state before it. */
  ghost predicate BatchOk(db: Db, batch: Batch) {
    && 1 <= batch.first <= batch.last <= Processed(db)
    && Has(db.requests, 1, batch.last)
    && batch.state == StateAt(db.requests, batch.first - 1)
    && batch.requests == Slice(db.requests, batch.first, batch.last)
  }

  // Where the range after the first k batches begins.
  function EndOf(batches: seq<Batch>, k: nat): nat
    requires k <= |batches|
  {
    if k == 0 then INIT_INDEX else batches[k - 1].last + 1
  }

  /** Batches have nonces 1, 2, ... and adjacent ranges from 1 on. */
  ghost predicate Adjacent(batches: seq<Batch>) {
    forall k :: 0 <= k < |batches| ==> batches[k].nonce == k + 1 && batches[k].first == EndOf(batches, k)
  }

  ghost predicate BatcherOk(n: Node) {
    var k := |n.batches|;
    match n.batcher
    case Waiting => n.db.nextBatch.None? && k == 0
    case Idle(nonce) => n.db.nextBatch == Some(EndOf(n.batches, k)) && nonce == k + 1
    case HasFirst(nonce, first) => n.db.nextBatch == Some(first) && first == EndOf(n.batches, k) && nonce == k + 1
    case HasRange(nonce, first, last) =>
      && n.db.nextBatch == Some(first) && first == EndOf(n.batches, k) && nonce == k + 1
      && first <= last <= Processed(n.db)
    case Reading(nonce, first, last, state, requests) =>
      && n.db.nextBatch == Some(first) && first == EndOf(n.batches, k) && nonce == k + 1
      && 1 <= first <= last <= Processed(n.db) && Has(n.db.requests, 1, last)
      && |requests| <= last + 1 - first
      && state == StateAt(n.db.requests, first - 1)
      && requests == Slice(n.db.requests, first, first + |requests| - 1)
    case Submitting(batch, _) => k > 0 && batch == n.batches[k - 1]
    case Accepted(batch) => k > 0 && batch == n.batches[k - 1]
    case Stopped => true
  }

  ghost predicate NodeOk(n: Node) {
    && DbOk(n.db) && EngineOk(n.db, n.engine)
    && Adjacent(n.batches)
    && (forall k :: 0 <= k < |n.batches| ==> BatchOk(n.db, n.batches[k]))
    && BatcherOk(n)
    && (forall i :: 0 <= i < |n.delivered| ==> n.delivered[i] in n.batches)
  }

  // ---- What never changes ----

  /** Nothing up to the processed index is ever touched again. */
  ghost predicate Keeps(db: Db, db': Db) {
    Processed(db) <= Processed(db') && forall i :: 1 <= i <= Processed(db) ==> SameEntry(db, db', i)
  }

  ghost predicate SameEntry(db: Db, db': Db, i: nat) {
    && i in db.requests.Keys && i in db'.requests.Keys && db'.requests[i] == db.requests[i]
    && i in db.states.Keys && i in db'.states.Keys && db'.states[i] == db.states[i]
    && i in db.responses.Keys && i in db'.responses.Keys && db'.responses[i] == db.responses[i]
    && i in db.diffs.Keys && i in db'.diffs.Keys && db'.diffs[i] == db.diffs[i]
  }

  lemma RequestsSame(db: Db, db': Db, i: nat)
    requires Keeps(db, db') && i <= Processed(db)
    ensures Has(db.requests, 1, i) && Has(db'.requests, 1, i)
    ensures forall k :: 1 <= k <= i ==> db'.requests[k] == db.requests[k]
  {
    forall k | 1 <= k <= i
      ensures k in db.requests.Keys && k in db'.requests.Keys && db'.requests[k] == db.requests[k]
    {
      assert SameEntry(db, db', k);
    }
  }

  lemma StateSame(db: Db, db': Db, i: nat)
    requires Keeps(db, db') && i <= Processed(db)
    ensures Has(db.requests, 1, i) && Has(db'.requests, 1, i) && StateAt(db'.requests, i) == StateAt(db.requests, i)
  {
    RequestsSame(db, db', i);
    SliceSame(db.requests, db'.requests, 1, i);
  }

  lemma BatchSame(db: Db, db': Db, batch: Batch)
    requires Keeps(db, db') && BatchOk(db, batch)
    ensures BatchOk(db', batch)
  {
    hide StateAt, Slice;
    StateSame(db, db', batch.first - 1);
    StateSame(db, db', batch.last);
    RequestsSame(db, db', batch.last);
    SliceSame(db.requests, db'.requests, batch.first, batch.last);
  }

  lemma EntrySame(db: Db, db': Db, i: nat)
    requires Keeps(db, db') && 1 <= i <= Processed(db) && EntryOk(db, i)
    ensures EntryOk(db', i)
  {
    hide StateAt, Slice, Tick;
    StateSame(db, db', i);
    StateSame(db, db', i - 1);
    assert SameEntry(db, db', i);
  }

  // ---- Engine steps ----

  lemma StartKeeps(n: Node)
    requires DbOk(n.db) && CanDo(n, StartEngine)
    ensures var n' := DoStart(n); DbOk(n'.db) && EngineOk(n'.db, n'.engine) && Keeps(n.db, n'.db)
  {
    hide Tick, Run, Slice;
    var db, db' := n.db, DoStart(n).db;
    forall i | 1 <= i <= Processed(db)
      ensures SameEntry(db, db', i)
    {
      assert EntryOk(db, i);
    }
    forall i | 1 <= i <= Processed(db)
      ensures EntryOk(db', i)
    {
      EntrySame(db, db', i);
    }
  }

  lemma ReceiveKeeps(n: Node, request: Request)
    requires DbOk(n.db) && EngineOk(n.db, n.engine) && n.engine.Ready?
    ensures var n' := DoReceive(n, request); DbOk(n'.db) && EngineOk(n'.db, n'.engine) && Keeps(n.db, n'.db)
  {
    hide Tick, Run, Slice, StateAt;
    var db, db' := n.db, DoReceive(n, request).db;
    forall i | 1 <= i <= Processed(db)
      ensures SameEntry(db, db', i)
    {
      assert EntryOk(db, i);
    }
    forall i | 1 <= i <= Processed(db)
      ensures EntryOk(db', i)
    {
      EntrySame(db, db', i);
    }
  }

  lemma ProcessedState(db: Db)
    requires DbOk(db) && 0 in db.states.Keys
    ensures Has(db.requests, 1, Processed(db)) && Processed(db) in db.states.Keys
    ensures db.states[Processed(db)] == StateAt(db.requests, Processed(db))
  {
    if Processed(db) > 0 {
      assert EntryOk(db, Processed(db));
    }
  }

  lemma PersistKeeps(n: Node)
    requires DbOk(n.db) && EngineOk(n.db, n.engine) && n.engine.Logged?
    ensures var n' := DoPersist(n); DbOk(n'.db) && EngineOk(n'.db, n'.engine) && Keeps(n.db, n'.db)
  {
    hide Tick, Run, Slice, StateAt;
    var db, db' := n.db, DoPersist(n).db;
    var p := Processed(db);
    forall i | 1 <= i <= p
      ensures SameEntry(db, db', i)
    {
      assert EntryOk(db, i);
    }
    forall i | 1 <= i <= p
      ensures EntryOk(db', i)
    {
      EntrySame(db, db', i);
    }
    ProcessedState(db);
    NextState(db'.requests, p);
    assert EntryOk(db', p + 1);
  }

  // A step that leaves the batcher alone and keeps the log keeps the rest.
  lemma {:induction false} EngineStepOk(n: Node, n': Node)
    requires NodeOk(n) && DbOk(n'.db) && EngineOk(n'.db, n'.engine) && Keeps(n.db, n'.db)
    requires n'.db.nextBatch == n.db.nextBatch
    requires n'.batcher == n.batcher && n'.batches == n.batches && n'.delivered == n.delivered
    ensures NodeOk(n')
  {
    hide Tick, Run, Slice, StateAt, Keeps, DbOk, EngineOk, BatchOk;
    forall k | 0 <= k < |n.batches|
      ensures BatchOk(n'.db, n.batches[k])
    {
      BatchSame(n.db, n'.db, n.batches[k]);
    }
    BatcherSame(n, n');
  }

  lemma BatcherSame(n: Node, n': Node)
    requires BatcherOk(n) && Keeps(n.db, n'.db) && n'.db.nextBatch == n.db.nextBatch
    requires n'.batcher == n.batcher && n'.batches == n.batches
    ensures BatcherOk(n')
  {
    hide Run, Slice;
    if n.batcher.Reading? {
      var b := n.batcher;
      StateSame(n.db, n'.db, b.first - 1);
      StateSame(n.db, n'.db, b.last);
      RequestsSame(n.db, n'.db, b.last);
      SliceSame(n.db.requests, n'.db.requests, b.first, b.first + |b.requests| - 1);
    }
  }
}
