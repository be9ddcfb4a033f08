/**
 * The rate limiter of the build scripts: a bound on concurrently running
 * tasks, a FIFO queue for the rest, queue timeouts and integer metrics.
 * Tasks are named by the numbers the limiter hands out; a task's completion
 * and a queue timer firing are events the caller reports.
 */
module RateLimiting {
  import opened Common

  /** The counters of `metrics` (the start time is a clock reading and is not modelled). */
  datatype Metrics = Metrics(total: int, completed: int, failed: int, rejected: int,
                             queued: int, maxQueueSize: int)

  const ZeroMetrics := Metrics(0, 0, 0, 0, 0, 0)

  /** What `getMetrics` reports besides the formatted rates. */
  datatype Report = Report(metrics: Metrics, active: int, queueLength: nat)

  function Max(a: int, b: int): int {
    if a >= b then a else b
  }

  /**
   * How many queued tasks `processQueue` starts from a queue of
   * `queueLength` tasks with `activeCount` running: it starts them one by
   * one while a slot is free.
   */
  function Admitted(queueLength: nat, activeCount: int, maxConcurrent: int): (n: nat)
    ensures n <= queueLength
    ensures n == 0 || activeCount + n <= maxConcurrent
    ensures n < queueLength ==> activeCount + n >= maxConcurrent
  {
    if maxConcurrent - activeCount <= 0 then 0
    else if queueLength <= maxConcurrent - activeCount then queueLength
    else maxConcurrent - activeCount
  }

  /** The queue after `splice(i, 1)`. */
  function RemoveAt<T>(s: seq<T>, i: nat): (r: seq<T>)
    requires i < |s|
    ensures |r| == |s| - 1
  {
    s[..i] + s[i + 1..]
  }

  /** Removing one entry keeps the others, in order, and drops a distinct entry entirely. */
  lemma RemoveAtFacts<T>(s: seq<T>, i: nat)
    requires i < |s| && NoDup(s)
    ensures NoDup(RemoveAt(s, i))
    ensures forall x :: x in RemoveAt(s, i) <==> x in s && x != s[i]
  {
    var r := RemoveAt(s, i);
    forall j | 0 <= j < |r|
      ensures r[j] == if j < i then s[j] else s[j + 1]
    {
    }
    forall x | x in s && x != s[i]
      ensures x in r
    {
      var k :| 0 <= k < |s| && s[k] == x;
      if k < i {
        assert r[k] == x;
      } else {
        assert r[k - 1] == x;
      }
    }
  }

  class RateLimiter {
    const maxConcurrent: int
    const rateLimitMs: int
    const queueTimeoutMs: int
    var activeCount: int
    var queue: seq<nat>
    var metrics: Metrics
    /** The number the next submitted task gets. */
    var nextId: nat
    /** Every task started so far, in the order started. */
    ghost var started: seq<nat>
    /** Every task whose queue timer removed it. */
    ghost var timedOut: set<nat>

    /**
     * The bookkeeping every event keeps: no more running tasks than allowed,
     * `queued` is the queue's length and `maxQueueSize` bounds it, every
     * started task is running, completed or failed, and a queued task is
     * waiting once and has not started, and a task that timed out is
     * neither waiting nor started.
     */
    ghost predicate Valid()
      reads this
    {
      0 <= activeCount && (activeCount <= maxConcurrent || activeCount == 0)
      && metrics.queued == |queue|
      && metrics.maxQueueSize >= |queue|
      && metrics.total == metrics.completed + metrics.failed + activeCount
      && metrics.completed >= 0 && metrics.failed >= 0 && metrics.rejected >= 0
      && NoDup(queue)
      && (forall i :: 0 <= i < |queue| ==> queue[i] < nextId && queue[i] !in started)
      && (forall i :: 0 <= i < |started| ==> started[i] < nextId)
      && (forall x :: x in timedOut ==> x < nextId && x !in queue && x !in started)
    }

    /** The options after their defaults are applied. */
    constructor (maxConcurrent: int, rateLimitMs: int, queueTimeoutMs: int)
      ensures Valid()
      ensures this.maxConcurrent == maxConcurrent && this.rateLimitMs == rateLimitMs
      ensures this.queueTimeoutMs == queueTimeoutMs
      ensures activeCount == 0 && queue == [] && metrics == ZeroMetrics && started == [] && timedOut == {}
    {
      this.maxConcurrent := maxConcurrent;
      this.rateLimitMs := rateLimitMs;
      this.queueTimeoutMs := queueTimeoutMs;
      activeCount := 0;
      queue := [];
      metrics := ZeroMetrics;
      nextId := 0;
      started := [];
      timedOut := {};
    }

    /** `getMetrics` without the throughput and success-rate strings. */
    function GetMetrics(): (r: Report)
      reads this
      ensures r.active == activeCount && r.queueLength == |queue|
    {
      Report(metrics, activeCount, |queue|)
    }

    /** `executeTask`: the task starts and counts towards `total`. */
    method ExecuteTask(id: nat)
      requires Valid() && activeCount < maxConcurrent
      requires id < nextId && id !in started && id !in queue && id !in timedOut
      modifies this
      ensures Valid()
      ensures activeCount == old(activeCount) + 1 && started == old(started) + [id]
      ensures metrics == old(metrics).(total := old(metrics).total + 1)
      ensures queue == old(queue) && nextId == old(nextId) && timedOut == old(timedOut)
    {
      activeCount := activeCount + 1;
      metrics := metrics.(total := metrics.total + 1);
      started := started + [id];
    }

    /** `queueTask`: the task waits at the back of the queue. */
    method QueueTask(id: nat)
      requires Valid() && id < nextId && id !in started && id !in queue && id !in timedOut
      modifies this
      ensures Valid()
      ensures queue == old(queue) + [id]
      ensures metrics == old(metrics).(queued := old(metrics).queued + 1,
                                       maxQueueSize := Max(old(metrics).maxQueueSize, |queue|))
      ensures activeCount == old(activeCount) && started == old(started) && nextId == old(nextId)
      ensures timedOut == old(timedOut)
    {
      metrics := metrics.(queued := metrics.queued + 1);
      queue := queue + [id];
      if |queue| > metrics.maxQueueSize {
        metrics := metrics.(maxQueueSize := |queue|);
      }
    }

    /**
     * `execute`: a new task starts at once iff a slot is free, and waits at
     * the back of the queue otherwise.
     */
    method Execute() returns (id: nat, startedNow: bool)
      requires Valid()
      modifies this
      ensures Valid()
      ensures id == old(nextId) && nextId == old(nextId) + 1
      ensures startedNow <==> old(activeCount) < maxConcurrent
      ensures timedOut == old(timedOut)
      ensures startedNow ==>
        activeCount == old(activeCount) + 1 && started == old(started) + [id] && queue == old(queue)
        && metrics == old(metrics).(total := old(metrics).total + 1)
      ensures !startedNow ==>
        activeCount == old(activeCount) && started == old(started) && queue == old(queue) + [id]
        && metrics == old(metrics).(queued := old(metrics).queued + 1,
                                    maxQueueSize := Max(old(metrics).maxQueueSize, |queue|))
    {
      id := nextId;
      nextId := nextId + 1;
      if activeCount < maxConcurrent {
        ExecuteTask(id);
        startedNow := true;
      } else {
        QueueTask(id);
        startedNow := false;
      }
    }

    /**
     * `processQueue`: starts queued tasks from the front, in queue order,
     * until the queue is empty or no slot is free.
     */
    method ProcessQueue()
      requires Valid()
      modifies this
      ensures Valid()
      ensures var n := Admitted(|old(queue)|, old(activeCount), maxConcurrent);
        queue == old(queue)[n..] && started == old(started) + old(queue)[..n]
        && activeCount == old(activeCount) + n
        && metrics == old(metrics).(total := old(metrics).total + n, queued := old(metrics).queued - n)
      ensures queue == [] || activeCount >= maxConcurrent
      ensures nextId == old(nextId) && timedOut == old(timedOut)
    {
      ghost var q0, s0, a0, m0 := queue, started, activeCount, metrics;
      ghost var k := 0;
      assert q0[0..] == q0;
      while |queue| > 0 && activeCount < maxConcurrent
        invariant Valid() && nextId == old(nextId) && timedOut == old(timedOut)
        invariant k <= Admitted(|q0|, a0, maxConcurrent)
        invariant queue == q0[k..] && started == s0 + q0[..k] && activeCount == a0 + k
        invariant metrics == m0.(total := m0.total + k, queued := m0.queued - k)
        decreases |queue|
      {
        var task := queue[0];
        assert task !in queue[1..];
        assert q0[..k + 1] == q0[..k] + [task];
        assert q0[k + 1..] == queue[1..];
        queue := queue[1..];
        metrics := metrics.(queued := metrics.queued - 1);
        ExecuteTask(task);
        k := k + 1;
      }
    }

    /**
     * A running task settles: it counts as completed or failed, its slot
     * frees, and the queue is processed.
     */
    method Finish(succeeded: bool)
      requires Valid() && activeCount > 0
      modifies this
      ensures Valid()
      ensures var n := Admitted(|old(queue)|, old(activeCount) - 1, maxConcurrent);
        queue == old(queue)[n..] && started == old(started) + old(queue)[..n]
        && activeCount == old(activeCount) - 1 + n
        && metrics == old(metrics).(total := old(metrics).total + n, queued := old(metrics).queued - n,
                                    completed := old(metrics).completed + (if succeeded then 1 else 0),
                                    failed := old(metrics).failed + (if succeeded then 0 else 1))
      ensures nextId == old(nextId) && timedOut == old(timedOut)
    {
      if succeeded {
        metrics := metrics.(completed := metrics.completed + 1);
      } else {
        metrics := metrics.(failed := metrics.failed + 1);
      }
      activeCount := activeCount - 1;
      ProcessQueue();
    }

    /**
     * The queue timer of task `id` fires: a task still waiting is removed
     * and counted as rejected; otherwise nothing happens.
     */
    method Timeout(id: nat) returns (rejectedNow: bool)
      requires Valid()
      modifies this
      ensures Valid()
      ensures rejectedNow <==> id in old(queue)
      ensures rejectedNow ==>
        queue == RemoveAt(old(queue), FirstIndex(old(queue), id))
        && metrics == old(metrics).(rejected := old(metrics).rejected + 1, queued := old(metrics).queued - 1)
        && id !in queue && id !in started && timedOut == old(timedOut) + {id}
      ensures !rejectedNow ==> queue == old(queue) && metrics == old(metrics) && timedOut == old(timedOut)
      ensures activeCount == old(activeCount) && started == old(started) && nextId == old(nextId)
    {
      var index := if id in queue then FirstIndex(queue, id) else -1;
      if index > -1 {
        RemoveAtFacts(queue, index);
        queue := RemoveAt(queue, index);
        metrics := metrics.(rejected := metrics.rejected + 1, queued := metrics.queued - 1);
        timedOut := timedOut + {id};
        rejectedNow := true;
      } else {
        rejectedNow := false;
      }
    }

    /** `reset`, with no task running: the queue is dropped and every counter is zero. */
    method Reset()
      requires Valid() && activeCount == 0
      modifies this
      ensures Valid()
      ensures activeCount == 0 && queue == [] && metrics == ZeroMetrics
      ensures started == old(started) && nextId == old(nextId) && timedOut == old(timedOut)
    {
      activeCount := 0;
      queue := [];
      metrics := ZeroMetrics;
    }
  }
}
