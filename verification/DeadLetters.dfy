/** The dead letter queue: jobs whose first relay failed are retried once a pass until
    they are included or their retries are used up. */
module DeadLetters {
  import opened Api
  import opened Sums
  import opened Retry

  type JobId = nat

  type Table = map<JobId, U32>  // retries so far, by job id

  /** One pass, when exactly the jobs in `included` make it into a block. */
  function Pass(table: Table, maxRetries: U32, included: set<JobId>): Table {
    map id | id in table.Keys && id !in included && table[id] != maxRetries :: Add32(table[id], 1)
  }

  class RelayRetry {
    var relayFailureJobs: Table
    const dlqMaxRetries: U32

    constructor (maxRetries: U32)
      ensures dlqMaxRetries == maxRetries && relayFailureJobs == map[]
    {
      dlqMaxRetries, relayFailureJobs := maxRetries, map[];
    }

    method RetryJobs(included: set<JobId>)
      modifies this
      ensures relayFailureJobs == Pass(old(relayFailureJobs), dlqMaxRetries, included)
    {
      var retryJobs := relayFailureJobs;
      var jobsToDelete: set<JobId> := {};
      var rest := retryJobs.Keys;
      while rest != {}
        invariant rest <= retryJobs.Keys == relayFailureJobs.Keys
        invariant jobsToDelete <= retryJobs.Keys - rest
        invariant forall id :: id in rest ==> relayFailureJobs[id] == retryJobs[id]
        invariant forall id :: id in retryJobs.Keys - rest ==>
          (id in jobsToDelete <==> id in included || retryJobs[id] == dlqMaxRetries)
        invariant forall id :: id in retryJobs.Keys - rest && id !in jobsToDelete ==>
          relayFailureJobs[id] == Add32(retryJobs[id], 1)
        decreases rest
      {
        var id :| id in rest;
        rest := rest - {id};
        if id in included {
          jobsToDelete := jobsToDelete + {id};
        } else if retryJobs[id] == dlqMaxRetries {
          jobsToDelete := jobsToDelete + {id};
        } else {
          relayFailureJobs := relayFailureJobs[id := Add32(retryJobs[id], 1)];
        }
      }
      relayFailureJobs := relayFailureJobs - jobsToDelete;
    }
  }

  // ---- Every pass makes progress ----

  /** How often a job may still be retried, its counter wrapping on the way if it is above
      the maximum. With no retries used that is maxRetries + 1. */
  function Lives(retries: U32, maxRetries: U32): nat {
    (maxRetries - retries) % TWO32 + 1
  }

  lemma LivesOf(retries: U32, maxRetries: U32)
    ensures Lives(retries, maxRetries) >= 1
    ensures retries <= maxRetries ==> Lives(retries, maxRetries) == maxRetries + 1 - retries
    ensures Lives(retries, maxRetries) == 1 <==> retries == maxRetries
    ensures retries != maxRetries ==> Lives(Add32(retries, 1), maxRetries) == Lives(retries, maxRetries) - 1
  {
  }

  ghost function Left(table: Table, maxRetries: U32): JobId -> int {
    (id: JobId) => if id in table.Keys then Lives(table[id], maxRetries) else 0
  }

  /** Retries still to be used, over all queued jobs. */
  ghost function Measure(table: Table, maxRetries: U32): int {
    Sum(table.Keys, Left(table, maxRetries))
  }

  lemma {:induction false} SumLess(s: set<JobId>, f: JobId -> int, g: JobId -> int)
    requires forall k :: k in s ==> f(k) < g(k)
    ensures Sum(s, f) + |s| <= Sum(s, g)
    decreases s
  {
    if s != {} {
      var k :| k in s;
      SumPick(s, f, k);
      SumPick(s, g, k);
      SumLess(s - {k}, f, g);
    }
  }

  lemma {:induction false} SumSub(s: set<JobId>, t: set<JobId>, f: JobId -> int)
    requires s <= t && forall k :: k in t - s ==> f(k) == 0
    ensures Sum(s, f) == Sum(t, f)
    decreases t
  {
    if t <= s {
      assert s == t;
    } else {
      var k :| k in t && k !in s;
      SumPick(t, f, k);
      SumSub(s, t - {k}, f);
    }
  }

  lemma OnePass(table: Table, maxRetries: U32, included: set<JobId>, id: JobId)
    requires id in table.Keys
    ensures 0 <= Left(Pass(table, maxRetries, included), maxRetries)(id) < Left(table, maxRetries)(id)
  {
    LivesOf(table[id], maxRetries);
  }

  /** Without new failures, every pass uses up at least one retry of every queued job. */
  lemma {:induction false} PassFalls(table: Table, maxRetries: U32, included: set<JobId>)
    ensures 0 <= Measure(Pass(table, maxRetries, included), maxRetries)
    ensures Measure(Pass(table, maxRetries, included), maxRetries) + |table| <= Measure(table, maxRetries)
  {
    hide Pass, Lives;
    var after := Pass(table, maxRetries, included);
    PassKeys(table, maxRetries, included);
    forall id | id in table.Keys
      ensures 0 <= Left(after, maxRetries)(id) < Left(table, maxRetries)(id)
    {
      OnePass(table, maxRetries, included, id);
    }
    SumNonNegative(after.Keys, Left(after, maxRetries));
    SumSub(after.Keys, table.Keys, Left(after, maxRetries));
    SumLess(table.Keys, Left(after, maxRetries), Left(table, maxRetries));
    assert |table.Keys| == |table|;
  }

  lemma PassKeys(table: Table, maxRetries: U32, included: set<JobId>)
    ensures Pass(table, maxRetries, included).Keys <= table.Keys
  {
  }

  function Passes(table: Table, maxRetries: U32, included: seq<set<JobId>>): Table {
    if included == [] then table
    else Pass(Passes(table, maxRetries, included[..|included| - 1]), maxRetries, included[|included| - 1])
  }

  // ---- How long one job stays ----

  ghost predicate NeverIncluded(included: seq<set<JobId>>, id: JobId) {
    forall i :: 0 <= i < |included| ==> id !in included[i]
  }

  /** A job that always fails is retried exactly `Lives` times: it is queued before each of
      these passes and gone after the last. */
  lemma {:induction false} FailingStays(table: Table, maxRetries: U32, included: seq<set<JobId>>, id: JobId)
    requires id in table.Keys && NeverIncluded(included, id)
    ensures var left := Passes(table, maxRetries, included);
      && (id in left.Keys <==> |included| < Lives(table[id], maxRetries))
      && (id in left.Keys ==> Lives(left[id], maxRetries) == Lives(table[id], maxRetries) - |included|)
  {
    hide Lives, Add32;
    if included == [] {
      LivesOf(table[id], maxRetries);
    } else {
      var n := |included| - 1;
      FailingStays(table, maxRetries, included[..n], id);
      var before := Passes(table, maxRetries, included[..n]);
      if id in before.Keys {
        LivesOf(before[id], maxRetries);
      }
    }
  }

  // What is still queued was never included, and nothing enters.
  lemma {:induction false} Gone(table: Table, maxRetries: U32, included: seq<set<JobId>>, id: JobId)
    requires id in Passes(table, maxRetries, included).Keys
    ensures NeverIncluded(included, id) && id in table.Keys
  {
    if included != [] {
      var n := |included| - 1;
      Gone(table, maxRetries, included[..n], id);
      assert forall i :: 0 <= i < n ==> included[i] == included[..n][i];
    }
  }

  /** Without new failures n passes empty the queue, whatever they include, if and only if no
      job has more than n retries left: for counters up to the maximum, maxRetries + 1 passes do. */
  lemma {:induction false} QueueEmptiesIff(table: Table, maxRetries: U32, n: nat)
    ensures (forall included {:trigger Passes(table, maxRetries, included)} ::
               |included| == n ==> Passes(table, maxRetries, included) == map[])
      <==> forall id :: id in table.Keys ==> Lives(table[id], maxRetries) <= n
  {
    hide Passes, NeverIncluded, Lives;
    if id :| id in table.Keys && Lives(table[id], maxRetries) > n {
      var none: seq<set<JobId>> := seq(n, _ => {});
      NoneIncluded(none, id);
      FailingStays(table, maxRetries, none, id);
      assert Passes(table, maxRetries, none) != map[];
    } else {
      forall included: seq<set<JobId>> | |included| == n
        ensures Passes(table, maxRetries, included) == map[]
      {
        Emptied(table, maxRetries, included);
      }
    }
  }

  lemma NoneIncluded(included: seq<set<JobId>>, id: JobId)
    requires forall i :: 0 <= i < |included| ==> included[i] == {}
    ensures NeverIncluded(included, id)
  {
  }

  lemma Emptied(table: Table, maxRetries: U32, included: seq<set<JobId>>)
    requires forall id :: id in table.Keys ==> Lives(table[id], maxRetries) <= |included|
    ensures Passes(table, maxRetries, included) == map[]
  {
    hide Passes, NeverIncluded, Lives;
    var left := Passes(table, maxRetries, included);
    forall id
      ensures id !in left.Keys
    {
      if id in left.Keys {
        Gone(table, maxRetries, included, id);
        FailingStays(table, maxRetries, included, id);
      }
    }
  }
}
