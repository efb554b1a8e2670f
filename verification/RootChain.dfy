/** End to end: node, coprocessor and relay together. Whatever the interleaving, the
    batch jobs reach the relay actor as one unbroken chain of state roots. */
module RootChain {
  import opened Api
  import opened ClobSpec
  import opened ExecSpec
  import opened ExecOrder
  import opened Retry
  import opened RelaySpec
  import opened RelayOrder
  import opened NodeSpec
  import opened NodeLog
  import opened NodeRuns
  import Framing

  datatype Pipeline = Pipeline(node: Node, coproc: System<Batch>)

  datatype PipeEvent = AtNode(event: NodeEvent) | AtCoproc(step: SysEvent<Batch>)

  // The consumer's first nonce.
  const FIRST_NONCE: U64 := 1

  /** A job of the batcher: ordered, under its batch's nonce. */
  ghost predicate JobOf(job: Job<Batch>, batches: seq<Batch>) {
    && job.ordered && 1 <= job.nonce <= |batches| && job.payload == batches[job.nonce - 1]
  }

  /** Only jobs that reached the coprocessor get submitted to the execution actor; any
      number of times, in any order. */
  ghost predicate MayHappen(p: Pipeline, e: PipeEvent) {
    match e
    case AtNode(event) => CanDo(p.node, event)
    case AtCoproc(step) =>
      && CanHappen(p.coproc, step)
      && (step.Exec? && step.event.Submitted? ==>
            var job := step.event.job;
            job.ordered && job.payload in p.node.delivered && job.nonce == job.payload.nonce)
  }

  ghost function PipeStep(p: Pipeline, maxRetries: U32, e: PipeEvent): Pipeline
    requires MayHappen(p, e)
  {
    match e
    case AtNode(event) => p.(node := Do(p.node, event))
    case AtCoproc(step) => p.(coproc := SysStep(p.coproc, maxRetries, step))
  }

  ghost function PipeAfter(maxRetries: U32, events: seq<PipeEvent>): Pipeline {
    if events == [] then Pipeline(FRESH_NODE, Init(FIRST_NONCE))
    else
      var before, e := PipeAfter(maxRetries, events[..|events| - 1]), events[|events| - 1];
      if MayHappen(before, e) then PipeStep(before, maxRetries, e) else before
  }

  ghost predicate PipeRuns(maxRetries: U32, events: seq<PipeEvent>) {
    events == [] ||
    var before := events[..|events| - 1];
    PipeRuns(maxRetries, before) && MayHappen(PipeAfter(maxRetries, before), events[|events| - 1])
  }

  // ---- Jobs keep their batch ----

  ghost predicate AllJobs(x: Exec<Batch>, batches: seq<Batch>) {
    && (forall job :: job in x.inFlight ==> JobOf(job, batches))
    && (forall n :: n in x.completed.Keys ==> JobOf(x.completed[n], batches))
    && (forall i :: 0 <= i < |x.sent| ==> JobOf(x.sent[i], batches))
  }

  lemma {:induction false} DrainJobsOf(next: U64, completed: map<U64, Job<Batch>>, batches: seq<Batch>)
    requires forall n :: n in completed.Keys ==> JobOf(completed[n], batches)
    ensures forall i :: 0 <= i < |DrainJobs(next, completed)| ==> JobOf(DrainJobs(next, completed)[i], batches)
    ensures forall n :: n in DrainRest(next, completed).Keys ==> JobOf(DrainRest(next, completed)[n], batches)
    decreases completed.Keys
  {
    hide JobOf;
    if next in completed {
      DrainJobsOf(Add64(next, 1), completed - {next}, batches);
    }
  }

  lemma {:induction false} StepJobs(x: Exec<Batch>, e: Event<Batch>, batches: seq<Batch>)
    requires AllJobs(x, batches) && Enabled(x, e)
    requires e.Submitted? ==> JobOf(e.job, batches)
    ensures AllJobs(Step(x, e), batches)
  {
    hide JobOf, DrainJobs, DrainRest, DrainNext;
    if e.Finished? {
      DrainJobsOf(Add64(x.next, 1), x.completed, batches);
    }
  }

  lemma MoreBatches(x: Exec<Batch>, batches: seq<Batch>, batches': seq<Batch>)
    requires AllJobs(x, batches) && batches <= batches'
    ensures AllJobs(x, batches')
  {
  }

  lemma {:induction false} DeliveredJob(n: Node, job: Job<Batch>)
    requires NodeOk(n) && job.ordered && job.payload in n.delivered && job.nonce == job.payload.nonce
    ensures JobOf(job, n.batches)
  {
    hide DbOk, EngineOk, BatchOk, BatcherOk;
    var i :| 0 <= i < |n.delivered| && n.delivered[i] == job.payload;
    assert n.delivered[i] in n.batches;
    var k :| 0 <= k < |n.batches| && n.batches[k] == job.payload;
  }

  // ---- The invariant ----

  ghost predicate PipeInv(p: Pipeline, done: set<U64>) {
    && NodeOk(p.node) && RelayInv(p.coproc, FIRST_NONCE, done) && AllJobs(p.coproc.exec, p.node.batches)
    && forall n :: n in done ==> n <= |p.node.batches|
  }

  lemma {:induction false} CoprocJobs(p: Pipeline, maxRetries: U32, step: SysEvent<Batch>, done: set<U64>)
    requires PipeInv(p, done) && MayHappen(p, AtCoproc(step))
    ensures AllJobs(SysStep(p.coproc, maxRetries, step).exec, p.node.batches)
    ensures step.Exec? && step.event.Submitted? ==> JobOf(step.event.job, p.node.batches)
  {
    hide NodeOk, RelayInv, JobOf, Step;
    var s := p.coproc;
    match step
    case Exec(event) =>
      if event.Submitted? {
        DeliveredJob(p.node, event.job);
      }
      StepJobs(s.exec, event, p.node.batches);
    case Deliver =>
    case Take =>
    case Try(_) =>
    case TryUnordered(_, _) =>
  }

  lemma {:induction false} PipeStepOk(p: Pipeline, maxRetries: U32, e: PipeEvent, done: set<U64>)
    returns (done': set<U64>)
    requires PipeInv(p, done) && MayHappen(p, e) && |p.node.batches| + 1 < TWO64
    ensures PipeInv(PipeStep(p, maxRetries, e), done')
  {
    hide NodeOk, RelayInv, AllJobs, SysStep, CanHappen, Do, CanDo;
    match e
    case AtNode(event) =>
      DoOk(p.node, event);
      NoBatchLost(p.node, event);
      MoreBatches(p.coproc.exec, p.node.batches, Do(p.node, event).batches);
      done' := done;
    case AtCoproc(step) =>
      CoprocJobs(p, maxRetries, step, done);
      FinishedJob(p, step, done);
      SysStepOk(p.coproc, maxRetries, step, FIRST_NONCE, done, |p.node.batches| + 1);
      done' := done + SysDone(step);
  }

  // A task in flight has the nonce of a batch.
  lemma FinishedJob(p: Pipeline, step: SysEvent<Batch>, done: set<U64>)
    requires PipeInv(p, done) && CanHappen(p.coproc, step)
    ensures forall n :: n in done + SysDone(step) ==> n <= |p.node.batches|
  {
    hide NodeOk, RelayInv;
    if step.Exec? && step.event.Finished? {
      assert JobOf(step.event.job, p.node.batches);
    }
  }

  lemma NoBatchLost(n: Node, e: NodeEvent)
    requires CanDo(n, e)
    ensures |n.batches| <= |Do(n, e).batches|
  {
    hide Tick;
  }

  lemma BatchesGrow(p: Pipeline, maxRetries: U32, e: PipeEvent)
    requires MayHappen(p, e)
    ensures |p.node.batches| <= |PipeStep(p, maxRetries, e).node.batches|
  {
    hide SysStep;
    if e.AtNode? {
      NoBatchLost(p.node, e.event);
    }
  }

  lemma {:induction false} PipeOk(maxRetries: U32, events: seq<PipeEvent>) returns (done: set<U64>)
    requires PipeRuns(maxRetries, events) && |PipeAfter(maxRetries, events).node.batches| + 1 < TWO64
    ensures PipeInv(PipeAfter(maxRetries, events), done)
  {
    hide PipeInv, PipeStep, MayHappen;
    if events == [] {
      done := {};
      PipeStart();
    } else {
      var n := |events| - 1;
      BatchesGrow(PipeAfter(maxRetries, events[..n]), maxRetries, events[n]);
      done := PipeOk(maxRetries, events[..n]);
      done := PipeStepOk(PipeAfter(maxRetries, events[..n]), maxRetries, events[n], done);
    }
  }

  lemma PipeStart()
    ensures PipeInv(Pipeline(FRESH_NODE, Init(FIRST_NONCE)), {})
  {
    FreshOk();
    InitOk<Batch>(FIRST_NONCE);
  }

  // ---- The chain ----

  // All jobs being ordered, their nonces are the ordered nonces.
  lemma {:induction false} AllOrdered(jobs: seq<Job<Batch>>, i: nat)
    requires i < |jobs| && forall k :: 0 <= k < |jobs| ==> jobs[k].ordered
    ensures |OrderedNonces(jobs)| == |jobs| && OrderedNonces(jobs)[i] == jobs[i].nonce
    decreases |jobs|
  {
    var n := |jobs| - 1;
    if i < n {
      AllOrdered(jobs[..n], i);
    } else if n > 0 {
      AllOrdered(jobs[..n], 0);
    }
  }

  /** The i-th job handed to the relay actor carries the i-th batch. */
  lemma {:induction false} SentAre(p: Pipeline, done: set<U64>, i: nat)
    requires PipeInv(p, done) && i < |p.coproc.exec.sent|
    ensures i < |p.node.batches| && p.coproc.exec.sent[i].payload == p.node.batches[i]
    ensures p.coproc.exec.sent[i].nonce == i + 1
  {
    hide NodeOk, LogInv, OrderedNonces, Upto;
    var sent, next := p.coproc.exec.sent, p.coproc.exec.next;
    ExecInv(p.coproc, FIRST_NONCE, done);
    SentUpto(p.coproc.exec, FIRST_NONCE, done);
    forall k | 0 <= k < |sent|
      ensures sent[k].ordered
    {
      assert JobOf(sent[k], p.node.batches);
    }
    AllOrdered(sent, i);
    UptoLength(FIRST_NONCE, next);
    UptoAt(FIRST_NONCE, next, i);
    assert JobOf(sent[i], p.node.batches);
  }

  /** The state the zkVM program computes for a batch. */
  ghost function OutputOf(batch: Batch): State {
    Run(batch.state, batch.requests)
  }

  /** Each batch starts from the state its predecessor's program computes. */
  lemma {:induction false} BatchesChain(n: Node, i: nat)
    requires NodeOk(n) && i < |n.batches|
    ensures n.batches[i].state == if i == 0 then GENESIS else OutputOf(n.batches[i - 1])
  {
    hide DbOk, EngineOk, BatcherOk;
    var batch := n.batches[i];
    assert BatchOk(n.db, batch);
    if i == 0 {
      assert Slice(n.db.requests, 1, 0) == [];
    } else {
      var prev := n.batches[i - 1];
      assert BatchOk(n.db, prev);
      RangeState(n.db.requests, prev.first, prev.last);
    }
  }

  /** For every interleaving of engine steps, crashes, batch creation and job completions:
      the jobs handed to the relay actor have nonces 1, 2, ..., the first starts from the
      genesis root, and each later one's input root is its predecessor's output root. */
  lemma {:induction false} RootsChain<R>(maxRetries: U32, events: seq<PipeEvent>, root: State -> R, i: nat)
    requires PipeRuns(maxRetries, events) && |PipeAfter(maxRetries, events).node.batches| + 1 < TWO64
    requires i < |PipeAfter(maxRetries, events).coproc.exec.sent|
    ensures var sent := PipeAfter(maxRetries, events).coproc.exec.sent;
      && sent[i].nonce == i + 1
      && root(sent[i].payload.state) == root(if i == 0 then GENESIS else OutputOf(sent[i - 1].payload))
  {
    hide PipeAfter, PipeRuns, NodeOk, RelayInv, AllJobs, OutputOf;
    var done := PipeOk(maxRetries, events);
    var p := PipeAfter(maxRetries, events);
    SentAre(p, done, i);
    BatchesChain(p.node, i);
    if i > 0 {
      SentAre(p, done, i - 1);
    }
  }

  // ---- Through the program's input ----

  /** What the program makes of its input, given the decoders; None is a panic. */
  ghost function ProgramOutput(input: seq<Framing.Byte>, requestsOf: seq<Framing.Byte> -> Option<seq<Request>>,
                               stateOf: seq<Framing.Byte> -> Option<State>): Option<State>
  {
    match Framing.Split(input)
    case Panic => None
    case Frame(requests, state) =>
      if requestsOf(requests).None? || stateOf(state).None? then None
      else Some(Run(stateOf(state).value, requestsOf(requests).value))
  }

  /** From the bytes the batcher frames, the program computes the output of the batch, if the
      decoders undo the encoders and the encoded requests are shorter than 2^32 bytes. */
  lemma {:induction false} ProgramComputes(batch: Batch,
      requestBytes: seq<Request> -> seq<Framing.Byte>, stateBytes: State -> seq<Framing.Byte>,
      requestsOf: seq<Framing.Byte> -> Option<seq<Request>>, stateOf: seq<Framing.Byte> -> Option<State>)
    requires requestsOf(requestBytes(batch.requests)) == Some(batch.requests)
    requires stateOf(stateBytes(batch.state)) == Some(batch.state)
    requires |requestBytes(batch.requests)| < TWO32
    ensures ProgramOutput(Framing.Combine(requestBytes(batch.requests), stateBytes(batch.state)), requestsOf, stateOf)
         == Some(OutputOf(batch))
  {
    hide Run;
    Framing.RoundTripIff(requestBytes(batch.requests), stateBytes(batch.state));
  }
}
