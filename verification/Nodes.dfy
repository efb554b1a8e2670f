/** The bodies of the engine's and the batcher's loops, run without interruption, against
    the steps of `NodeSpec`. */
module Nodes {
  import opened Api
  import opened ClobSpec
  import opened Clobs
  import opened NodeSpec
  import opened NodeLog
  import opened NodeRuns

  class NodeDb {
    var seen: Option<nat>
    var processed: Option<nat>
    var nextBatch: Option<nat>
    var requests: map<nat, Request>
    var states: map<nat, State>
    var responses: map<nat, Response>
    var diffs: map<nat, seq<Diff>>

    ghost function View(): Db
      reads this
    {
      Db(seen, processed, nextBatch, requests, states, responses, diffs)
    }

    constructor ()
      ensures View() == FRESH_NODE.db
    {
      seen, processed, nextBatch := None, None, None;
      requests, states, responses, diffs := map[], map[], map[], map[];
    }
  }

  // ---- Engine ----

  /** None stands for the error of a missing state. */
  method ReadStartUpValues(db: NodeDb, ghost n: Node) returns (values: Option<(nat, State)>)
    requires n.db == db.View() && n.engine.Down?
    modifies db
    ensures values.Some? <==> CanDo(n, StartEngine)
    ensures values.Some? ==> DoStart(n) == n.(db := db.View(), engine := Ready(values.value.0, values.value.1))
    ensures values.None? ==> db.View() == n.db
  {
    var index := if db.processed.Some? then db.processed.value else GENESIS_GLOBAL_INDEX;
    if index == GENESIS_GLOBAL_INDEX {
      db.states := db.states[index := GENESIS];
      return Some((index, GENESIS));
    }
    if index !in db.states {
      return None;
    }
    return Some((index, db.states[index]));
  }

  // One turn of `run_engine`: log the request, execute it, persist what came of it.
  method HandleRequest(db: NodeDb, clob: Clob, index: nat, request: Request, ghost n: Node) returns (response: Response)
    requires n.db == db.View() && n.engine == Ready(index, clob.View())
    modifies db, clob, clob.book
    ensures DoPersist(DoReceive(n, request)) == n.(db := db.View(), engine := Ready(index + 1, clob.View()))
    ensures response == Tick(old(clob.View()), request).response
  {
    db.seen := Some(index + 1);
    db.requests := db.requests[index + 1 := request];
    var diffs;
    response, diffs := clob.Tick(request);
    db.processed := Some(index + 1);
    db.responses := db.responses[index + 1 := response];
    db.states := db.states[index + 1 := clob.View()];
    db.diffs := db.diffs[index + 1 := diffs];
  }

  // ---- Batcher ----

  method EnsureInitialized(db: NodeDb, ghost n: Node)
    requires n.db == db.View()
    modifies db
    ensures DoInit(n) == n.(db := db.View(), batcher := Idle(1))
  {
    if db.nextBatch.None? {
      db.nextBatch := Some(INIT_INDEX);
    }
  }

  // The part of `run_batcher` that chooses the range and collects state and requests.
  method CreateBatch(db: NodeDb, nonce: nat, ghost n: Node) returns (batch: Option<Batch>)
    requires n.db == db.View() && NodeOk(n) && n.batcher == Idle(nonce) && db.processed.Some?
    ensures batch.None? <==> db.nextBatch.value > db.processed.value
    ensures batch.Some? ==>
      && BatchOk(db.View(), batch.value) && batch.value.nonce == nonce
      && batch.value.first == EndOf(n.batches, |n.batches|) && batch.value.last == db.processed.value
  {
    hide Tick, Run, Adjacent;
    var first, last := db.nextBatch.value, db.processed.value;
    if first > last {
      return None;
    }
    EndProcessed(n);
    AllLogged(n.db, last);
    StateBefore(n.db, first);
    var state := db.states[first - 1];
    var requests := [];
    for i := first to last + 1
      invariant requests == Slice(db.requests, first, i - 1)
    {
      requests := requests + [db.requests[i]];
    }
    batch := Some(Batch(nonce, first, last, state, requests));
  }

  lemma StateBefore(db: Db, first: nat)
    requires DbOk(db) && 1 <= first <= Processed(db)
    ensures Has(db.requests, 1, first - 1) && first - 1 in db.states.Keys
    ensures db.states[first - 1] == StateAt(db.requests, first - 1)
  {
    if first > 1 {
      assert EntryOk(db, first - 1);
    }
  }

  /** `submit_job_with_backoff`: up to three calls with growing waits in seconds, the first
      success ending it. `results` are the outcomes of the calls. */
  method SubmitJobWithBackoff(results: seq<bool>) returns (ok: bool, calls: nat, waited: nat)
    requires |results| >= SUBMIT_RETRIES
    ensures calls <= SUBMIT_RETRIES
    ensures ok ==> calls >= 1 && results[calls - 1] && forall k :: 0 <= k < calls - 1 ==> !results[k]
    ensures !ok ==> calls == SUBMIT_RETRIES && forall k :: 0 <= k < calls ==> !results[k]
    ensures waited == if !ok then 1 + 8 + 64 else if calls == 1 then 0 else if calls == 2 then 1 else 1 + 8
  {
    var backoff := 1;
    waited := 0;
    for i := 0 to SUBMIT_RETRIES
      invariant forall k :: 0 <= k < i ==> !results[k]
      invariant i == 0 ==> backoff == 1 && waited == 0
      invariant i == 1 ==> backoff == 8 && waited == 1
      invariant i == 2 ==> backoff == 64 && waited == 9
      invariant i == 3 ==> waited == 73
    {
      if results[i] {
        return true, i + 1, waited;
      }
      waited := waited + backoff;
      backoff := backoff * 8;
    }
    return false, SUBMIT_RETRIES, waited;
  }
}
