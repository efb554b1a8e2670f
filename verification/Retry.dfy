/** Retrying a relay: how often, with what waits, and when it stops. Counters are 32-bit
    and wrap. */
module Retry {
  import opened Api

  type U32 = x: int | 0 <= x < 0x1_0000_0000

  function Add32(a: U32, b: U32): U32 { (a + b) % TWO32 }

  const JOB_RETRY_DELAY_MS: int := 500
  const JOB_RETRY_MAX_DELAY_MS: int := 30 * 1000

  function Backoff(i: int): int {
    if JOB_RETRY_DELAY_MS * i > JOB_RETRY_MAX_DELAY_MS then JOB_RETRY_MAX_DELAY_MS else JOB_RETRY_DELAY_MS * i
  }

  // ---- The first path: relay_job_result ----

  datatype Verdict = Included | GivenUp | Again(i: U32)

  /** What follows the attempt numbered i. */
  function Judge(i: U32, maxRetries: U32, ok: bool): Verdict {
    if i > Add32(maxRetries, 1) then if ok then Included else GivenUp
    else if !ok then Again(Add32(i, 1))
    else Included
  }

  datatype Outcome = Outcome(verdict: Verdict, attempts: nat, waited: int)

  /** The attempts from number i on, for as long as results are given. */
  function Relay(i: U32, maxRetries: U32, results: seq<bool>): Outcome
    decreases |results|
  {
    if results == [] then Outcome(Again(i), 0, 0)
    else
      var v := Judge(i, maxRetries, results[0]);
      if v.Again? then
        var rest := Relay(v.i, maxRetries, results[1..]);
        rest.(attempts := rest.attempts + 1, waited := rest.waited + Backoff(i))
      else Outcome(v, 1, 0)
  }

  // `results` are the outcomes of the relay transactions, one an attempt.
  method RelayJobResult(maxRetries: U32, results: seq<bool>) returns (verdict: Verdict, attempts: nat, waited: int)
    ensures Outcome(verdict, attempts, waited) == Relay(1, maxRetries, results)
  {
    var i: U32 := 1;
    attempts, waited := 0, 0;
    assert results[0..] == results;
    while attempts < |results|
      invariant attempts <= |results|
      invariant var rest := Relay(i, maxRetries, results[attempts..]);
        Relay(1, maxRetries, results)
          == rest.(attempts := attempts + rest.attempts, waited := waited + rest.waited)
    {
      var ok := results[attempts];
      assert results[attempts..][1..] == results[attempts + 1..];
      attempts := attempts + 1;
      if i > Add32(maxRetries, 1) {
        return if ok then Included else GivenUp, attempts, waited;
      } else if !ok {
        waited := waited + if JOB_RETRY_DELAY_MS * i > JOB_RETRY_MAX_DELAY_MS
                           then JOB_RETRY_MAX_DELAY_MS else JOB_RETRY_DELAY_MS * i;
      } else {
        return Included, attempts, waited;
      }
      i := Add32(i, 1);
    }
    verdict := Again(i);
  }

  function Waits(from: int, end: int): int
    decreases end - from
  {
    if from >= end then 0 else Backoff(from) + Waits(from + 1, end)
  }

  ghost predicate AllFail(results: seq<bool>) {
    forall k :: 0 <= k < |results| ==> !results[k]
  }

  /** How often a failing job may be tried again: the maximum plus one, wrapping. */
  function RetryLimit(maxRetries: U32): U32 { Add32(maxRetries, 1) }

  // The attempt numbered i, for as long as the counter cannot wrap before the limit.
  lemma JudgeIs(i: U32, maxRetries: U32)
    requires 1 <= i <= RetryLimit(maxRetries) + 1
    ensures Judge(i, maxRetries, true) == Included
    ensures Judge(i, maxRetries, false) == if i == RetryLimit(maxRetries) + 1 then GivenUp else Again(Add32(i, 1))
  {
  }

  lemma {:induction false} FailingFrom(i: U32, maxRetries: U32, results: seq<bool>)
    requires maxRetries != TWO32 - 2 && 1 <= i <= RetryLimit(maxRetries) + 1
    requires AllFail(results) && |results| >= RetryLimit(maxRetries) + 2 - i
    ensures Relay(i, maxRetries, results)
         == Outcome(GivenUp, RetryLimit(maxRetries) + 2 - i, Waits(i, RetryLimit(maxRetries) + 1))
    decreases RetryLimit(maxRetries) + 1 - i
  {
    hide Judge, Backoff;
    JudgeIs(i, maxRetries);
    if i < RetryLimit(maxRetries) + 1 {
      FailingFrom(i + 1, maxRetries, results[1..]);
    }
  }

  /** A job that always fails is given up after exactly maxRetries + 2 attempts, having
      waited between any two of them; after one if maxRetries + 1 wraps to 0. */
  lemma {:induction false} AlwaysFailing(maxRetries: U32, results: seq<bool>)
    requires maxRetries != TWO32 - 2 && AllFail(results) && |results| >= RetryLimit(maxRetries) + 1
    ensures Relay(1, maxRetries, results)
         == Outcome(GivenUp, RetryLimit(maxRetries) + 1, Waits(1, RetryLimit(maxRetries) + 1))
    ensures maxRetries < TWO32 - 2 ==> RetryLimit(maxRetries) + 1 == maxRetries + 2
    ensures maxRetries == TWO32 - 1 ==> RetryLimit(maxRetries) + 1 == 1
  {
    FailingFrom(1, maxRetries, results);
  }

  /** The total wait: quadratic up to 60 retries, then half a minute each. */
  lemma {:induction false} WaitsClosedForm(n: nat)
    ensures Waits(1, n + 1) == if n <= 60 then 250 * n * (n + 1) else 250 * 60 * 61 + (n - 60) * 30000
  {
    if n > 0 {
      WaitsClosedForm(n - 1);
      WaitsSnoc(1, n);
    }
  }

  lemma {:induction false} WaitsSnoc(from: int, end: int)
    requires from <= end
    ensures Waits(from, end + 1) == Waits(from, end) + Backoff(end)
    decreases end - from
  {
    if from < end {
      WaitsSnoc(from + 1, end);
    } else {
      assert Waits(end + 1, end + 1) == 0;
    }
  }

  // Attempt number i, which is the counter itself until that wraps on the very last one.
  lemma {:induction false} SucceedsFrom(i: nat, maxRetries: U32, results: seq<bool>, k: nat)
    requires 1 <= i && i + k <= RetryLimit(maxRetries) + 1
    requires k < |results| && results[k] && AllFail(results[..k])
    ensures Relay(i % TWO32, maxRetries, results) == Outcome(Included, k + 1, Waits(i, i + k))
    decreases k
  {
    hide Judge, Backoff;
    LastJudge(i, maxRetries);
    if k > 0 {
      JudgeIs(i, maxRetries);
      assert results[1..][..k - 1] == results[..k][1..];
      assert !results[..k][0];
      SucceedsFrom(i + 1, maxRetries, results[1..], k - 1);
    }
  }

  lemma LastJudge(i: nat, maxRetries: U32)
    requires 1 <= i <= RetryLimit(maxRetries) + 1
    ensures Judge(i % TWO32, maxRetries, true) == Included
  {
  }

  /** A job whose first success is attempt k + 1, within the limit, is attempted k + 1 times. */
  lemma {:induction false} SucceedsAt(maxRetries: U32, results: seq<bool>, k: nat)
    requires k <= RetryLimit(maxRetries)
    requires k < |results| && results[k] && AllFail(results[..k])
    ensures Relay(1, maxRetries, results) == Outcome(Included, k + 1, Waits(1, k + 1))
  {
    SucceedsFrom(1, maxRetries, results, k);
  }

  // ---- The two largest settings ----

  lemma {:induction false} NeverFrom(i: U32, results: seq<bool>)
    requires AllFail(results)
    ensures Relay(i, TWO32 - 2, results).verdict.Again? && Relay(i, TWO32 - 2, results).attempts == |results|
    decreases |results|
  {
    if results != [] {
      NeverFrom(Add32(i, 1), results[1..]);
    }
  }

  /** With maxRetries 2^32 - 2 every job that ever succeeds is relayed, however late. */
  lemma {:induction false} SucceedsEver(i: U32, results: seq<bool>, k: nat)
    requires k < |results| && results[k] && AllFail(results[..k])
    ensures Relay(i, TWO32 - 2, results).verdict == Included && Relay(i, TWO32 - 2, results).attempts == k + 1
    decreases k
  {
    if k > 0 {
      assert results[1..][..k - 1] == results[..k][1..];
      assert !results[..k][0];
      SucceedsEver(Add32(i, 1), results[1..], k - 1);
    }
  }

  /** A failing job is given up, eventually, unless maxRetries is 2^32 - 2: then the attempt
      counter wraps before it can exceed the limit. With 2^32 - 1 the limit itself wraps,
      and the first failure is final. */
  lemma GivenUpIff(maxRetries: U32)
    ensures (exists n: nat {:trigger Failures(n)} :: Relay(1, maxRetries, Failures(n)).verdict == GivenUp)
        <==> maxRetries != TWO32 - 2
    ensures maxRetries == TWO32 - 1 ==> Relay(1, maxRetries, [false]) == Outcome(GivenUp, 1, 0)
  {
    if maxRetries == TWO32 - 2 {
      forall n: nat
        ensures Relay(1, maxRetries, Failures(n)).verdict != GivenUp
      {
        NeverFrom(1, Failures(n));
      }
    } else if maxRetries == TWO32 - 1 {
      assert Failures(1) == [false];
    } else {
      AlwaysFailing(maxRetries, Failures(RetryLimit(maxRetries) + 1));
    }
  }

  function Failures(n: nat): seq<bool> { seq(n, _ => false) }
}
