/** The CLOB node: an engine that logs and executes requests, and a batcher that turns
    what has been executed into jobs, both over one database. A step is one database
    transaction, or one message. */
module NodeSpec {
  import opened Api
  import opened ClobSpec

  const GENESIS_GLOBAL_INDEX: nat := 0
  const INIT_INDEX: nat := 1
  const SUBMIT_RETRIES: nat := 3

  datatype Db = Db(
    seen: Option<nat>,
    processed: Option<nat>,
    nextBatch: Option<nat>,
    requests: map<nat, Request>,
    states: map<nat, State>,
    responses: map<nat, Response>,
    diffs: map<nat, seq<Diff>>)

  // Between two requests, or with one logged and not yet executed.
  datatype Engine =
    | Down
    | Ready(index: nat, state: State)
    | Logged(index: nat, request: Request, state: State)

  datatype Batch = Batch(nonce: nat, first: nat, last: nat, state: State, requests: seq<Request>)

  datatype Batcher =
    | Waiting
    | Idle(nonce: nat)
    | HasFirst(nonce: nat, first: nat)
    | HasRange(nonce: nat, first: nat, last: nat)
    | Reading(nonce: nat, first: nat, last: nat, state: State, requests: seq<Request>)
    | Submitting(batch: Batch, tries: nat)
    | Accepted(batch: Batch)
    | Stopped

  datatype Node = Node(
    db: Db,
    engine: Engine,
    batcher: Batcher,
    batches: seq<Batch>,     // every batch built so far
    delivered: seq<Batch>)   // every job that reached the coprocessor, repetitions included

  const FRESH_NODE := Node(Db(None, None, None, map[], map[], map[], map[]), Down, Waiting, [], [])

  datatype NodeEvent =
    | StartEngine | Receive(request: Request) | Persist | Crash
    | InitBatcher | ReadFirst | ReadLast | ReadState | ReadRequest | Build
    | Submit(reached: bool, ok: bool) | Commit

  function Processed(db: Db): nat {
    if db.processed.Some? then db.processed.value else GENESIS_GLOBAL_INDEX
  }

  predicate CanDo(n: Node, e: NodeEvent) {
    match e
    // engine
    case StartEngine => n.engine.Down? && (Processed(n.db) == GENESIS_GLOBAL_INDEX || Processed(n.db) in n.db.states)
    case Receive(_) => n.engine.Ready?
    case Persist => n.engine.Logged?
    case Crash => !n.engine.Down?
    // batcher
    case InitBatcher => n.batcher.Waiting? && n.db.processed.Some?
    case ReadFirst => n.batcher.Idle? && n.db.nextBatch.Some?
    case ReadLast => n.batcher.HasFirst? && n.db.processed.Some?
    case ReadState => n.batcher.HasRange? && n.batcher.first > 0 && n.batcher.first - 1 in n.db.states
    case ReadRequest =>
      && n.batcher.Reading? && n.batcher.first + |n.batcher.requests| <= n.batcher.last
      && n.batcher.first + |n.batcher.requests| in n.db.requests
    case Build => n.batcher.Reading? && n.batcher.first + |n.batcher.requests| > n.batcher.last
    case Submit(reached, ok) => n.batcher.Submitting? && (ok ==> reached)
    case Commit => n.batcher.Accepted?
  }

  // ---- Engine ----

  /** `read_start_up_values`, and the loop entered with them. */
  function DoStart(n: Node): Node
    requires CanDo(n, StartEngine)
  {
    var index := Processed(n.db);
    if index == GENESIS_GLOBAL_INDEX then
      n.(db := n.db.(states := n.db.states[index := GENESIS]), engine := Ready(index, GENESIS))
    else n.(engine := Ready(index, n.db.states[index]))
  }

  function DoReceive(n: Node, request: Request): Node
    requires n.engine.Ready?
  {
    var index := n.engine.index + 1;
    n.(db := n.db.(seen := Some(index), requests := n.db.requests[index := request]),
       engine := Logged(index, request, n.engine.state))
  }

  ghost function DoPersist(n: Node): Node
    requires n.engine.Logged?
  {
    var index, t := n.engine.index, Tick(n.engine.state, n.engine.request);
    n.(db := n.db.(processed := Some(index), responses := n.db.responses[index := t.response],
                   states := n.db.states[index := t.state], diffs := n.db.diffs[index := t.diffs]),
       engine := Ready(index, t.state))
  }

  // ---- Batcher ----

  function DoInit(n: Node): Node {
    n.(db := if n.db.nextBatch.Some? then n.db else n.db.(nextBatch := Some(INIT_INDEX)), batcher := Idle(1))
  }

  function DoReadLast(n: Node): Node
    requires n.batcher.HasFirst? && n.db.processed.Some?
  {
    var b, last := n.batcher, n.db.processed.value;
    n.(batcher := if b.first > last then Idle(b.nonce) else HasRange(b.nonce, b.first, last))
  }

  function DoBuild(n: Node): Node
    requires n.batcher.Reading?
  {
    var b := n.batcher;
    var batch := Batch(b.nonce, b.first, b.last, b.state, b.requests);
    n.(batcher := Submitting(batch, 0), batches := n.batches + [batch])
  }

  /** One try of `submit_job_with_backoff`. A job may reach the coprocessor although the
      call reports an error, and is then sent again. */
  function DoSubmit(n: Node, reached: bool, ok: bool): Node
    requires n.batcher.Submitting?
  {
    var batch, tries := n.batcher.batch, n.batcher.tries + 1;
    n.(delivered := if reached then n.delivered + [batch] else n.delivered,
       batcher := if ok then Accepted(batch) else if tries < SUBMIT_RETRIES then Submitting(batch, tries) else Stopped)
  }

  function DoCommit(n: Node): Node
    requires n.batcher.Accepted?
  {
    var batch := n.batcher.batch;
    n.(db := n.db.(nextBatch := Some(batch.last + 1)), batcher := Idle(batch.nonce + 1))
  }

  ghost function Do(n: Node, e: NodeEvent): Node
    requires CanDo(n, e)
  {
    match e
    case StartEngine => DoStart(n)
    case Receive(request) => DoReceive(n, request)
    case Persist => DoPersist(n)
    case Crash => n.(engine := Down)
    case InitBatcher => DoInit(n)
    case ReadFirst => n.(batcher := HasFirst(n.batcher.nonce, n.db.nextBatch.value))
    case ReadLast => DoReadLast(n)
    case ReadState =>
      var b := n.batcher;
      n.(batcher := Reading(b.nonce, b.first, b.last, n.db.states[b.first - 1], []))
    case ReadRequest =>
      var b := n.batcher;
      n.(batcher := b.(requests := b.requests + [n.db.requests[b.first + |b.requests|]]))
    case Build => DoBuild(n)
    case Submit(reached, ok) => DoSubmit(n, reached, ok)
    case Commit => DoCommit(n)
  }

  ghost function NodeAfter(events: seq<NodeEvent>): Node {
    if events == [] then FRESH_NODE
    else
      var before, e := NodeAfter(events[..|events| - 1]), events[|events| - 1];
      if CanDo(before, e) then Do(before, e) else before
  }

  /** Runs of the node: engine and batcher interleave, and the engine may crash and restart. */
  ghost predicate Runs(events: seq<NodeEvent>) {
    events == [] ||
    var before := events[..|events| - 1];
    Runs(before) && CanDo(NodeAfter(before), events[|events| - 1])
  }
}
