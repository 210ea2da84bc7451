/**
 * The wait for a permit: the consumer loop admits fetched messages in order, at most max_concurrency handlers at a
 * time, and sends no heartbeat for a message that waits. Times are nanoseconds.
 */
module Backpressure {
  import opened Common
  import opened Dispositions
  import opened Handler
  import opened Protocol
  import opened AckProgress
  import opened Faults
  import opened Timed

  /** One fetched delivery: it arrives, gets its permit, and its handler ends. */
  datatype Job = Job(delivered: nat, start: nat, end: nat)

  function Count(p: Job -> bool, jobs: seq<Job>): nat {
    if jobs == [] then 0 else Count(p, jobs[..|jobs| - 1]) + if p(jobs[|jobs| - 1]) then 1 else 0
  }

  function RunningAt(t: nat): Job -> bool {
    (j: Job) => j.start <= t < j.end
  }

  function QueuedAt(t: nat): Job -> bool {
    (j: Job) => j.start > t
  }

  /** Permits in use at time t. */
  function Active(jobs: seq<Job>, t: nat): nat {
    Count(RunningAt(t), jobs)
  }

  /** Messages that still wait for a permit at time t. */
  function Waiting(jobs: seq<Job>, t: nat): nat {
    Count(QueuedAt(t), jobs)
  }

  /** From when on the loop waits for a permit for job k: it has arrived, and the one before it has its permit. */
  function Fetched(jobs: seq<Job>, k: nat): nat
    requires k < |jobs|
  {
    if k == 0 then jobs[k].delivered else Max(jobs[k].delivered, jobs[k - 1].start)
  }

  /** Job k gets its permit at the first moment from then on at which one is free. */
  predicate Admitted(permits: nat, jobs: seq<Job>, k: nat)
    requires k < |jobs|
  {
    && Fetched(jobs, k) <= jobs[k].start
    && Active(jobs[..k], jobs[k].start) < permits
    && forall t :: Fetched(jobs, k) <= t < jobs[k].start ==> Active(jobs[..k], t) >= permits
  }

  /** Messages are admitted in order of arrival, and no handler takes longer than `longest`. */
  predicate Schedule(permits: nat, longest: nat, jobs: seq<Job>) {
    && (forall k {:trigger Admitted(permits, jobs, k)} :: 0 <= k < |jobs| ==> Admitted(permits, jobs, k))
    && (forall k :: 0 <= k < |jobs| ==> jobs[k].start <= jobs[k].end <= jobs[k].start + longest)
    && (forall j, k :: 0 <= j < k < |jobs| ==> jobs[j].delivered <= jobs[k].delivered)
  }

  lemma {:induction false} CountAtMost(p: Job -> bool, jobs: seq<Job>, m: nat)
    requires m <= |jobs| && forall i :: 0 <= i < m ==> !p(jobs[i])
    ensures Count(p, jobs) <= |jobs| - m
  {
    if jobs != [] {
      CountAtMost(p, jobs[..|jobs| - 1], Min(m, |jobs| - 1));
    }
  }

  lemma {:induction false} CountAtLeast(p: Job -> bool, jobs: seq<Job>, m: nat)
    requires m <= |jobs| && forall i :: m <= i < |jobs| ==> p(jobs[i])
    ensures Count(p, jobs) >= |jobs| - m
  {
    if m < |jobs| {
      CountAtLeast(p, jobs[..|jobs| - 1], m);
    }
  }

  lemma {:induction false} StartsInOrder(permits: nat, longest: nat, jobs: seq<Job>, j: nat, k: nat)
    requires Schedule(permits, longest, jobs) && j <= k < |jobs|
    ensures jobs[j].start <= jobs[k].start
  {
    if j < k {
      StartsInOrder(permits, longest, jobs, j, k - 1);
      assert Admitted(permits, jobs, k);
    }
  }

  /** A permit is free at the latest when the handler `permits` places before must have ended. */
  lemma StartBound(permits: nat, longest: nat, jobs: seq<Job>, k: nat)
    requires permits > 0 && Schedule(permits, longest, jobs) && k < |jobs|
    ensures jobs[k].start <= Max(Fetched(jobs, k), if k >= permits then jobs[k - permits].start + longest else 0)
  {
    hide Fetched;
    var t: nat := Max(Fetched(jobs, k), if k >= permits then jobs[k - permits].start + longest else 0);
    assert Admitted(permits, jobs, k);
    if t < jobs[k].start {
      var ended := if k >= permits then k - permits + 1 else 0;
      forall i | 0 <= i < ended
        ensures jobs[i].end <= t
      {
        StartsInOrder(permits, longest, jobs, i, k - permits);
      }
      assert Active(jobs[..k], t) >= permits;
      CountAtMost(RunningAt(t), jobs[..k], ended);
    }
  }

  /** The wait of the i-th of many jobs that arrive at once, in rounds of `permits` handlers. */
  function RoundStart(permits: nat, longest: nat, i: nat): nat
    requires permits > 0
  {
    if i < permits then 0 else longest + RoundStart(permits, longest, i - permits)
  }

  lemma {:induction false} RoundStartIsProduct(permits: nat, longest: nat, q: nat)
    requires permits > 0
    ensures RoundStart(permits, longest, permits + q) == (q / permits + 1) * longest
  {
    if q >= permits {
      RoundStartIsProduct(permits, longest, q - permits);
      OneRoundLess(permits, q);
      assert (q / permits + 1) * longest == longest + ((q - permits) / permits + 1) * longest;
    } else {
      assert RoundStart(permits, longest, permits + q) == longest + RoundStart(permits, longest, q);
      OneRoundLess(permits, q);
    }
  }

  lemma OneRoundLess(permits: nat, q: nat)
    requires permits > 0
    ensures q < permits ==> q / permits == 0
    ensures q >= permits ==> (q - permits) / permits == q / permits - 1
  {
    if q >= permits {
      var x, y := q / permits, (q - permits) / permits;
      assert q == x * permits + q % permits && q - permits == y * permits + (q - permits) % permits;
      WithinOneRound(permits, x - y - 1, (q - permits) % permits - q % permits);
      assert (x - y - 1) * permits == x * permits - y * permits - permits;
    }
  }

  lemma WithinOneRound(permits: int, n: int, r: int)
    requires -permits < r < permits
    ensures n * permits == r ==> n == 0
  {
    if n > 0 {
      assert n * permits >= permits;
    } else if n < 0 {
      assert n * permits <= -permits;
    }
  }

  lemma {:induction false} RoundStartGrows(permits: nat, longest: nat, i: nat, j: nat)
    requires permits > 0 && i <= j
    ensures RoundStart(permits, longest, i) <= RoundStart(permits, longest, j)
  {
    if i >= permits {
      RoundStartGrows(permits, longest, i - permits, j - permits);
    }
  }

  /** Job b + i starts within its round when the jobs before b have started by d and those up to it have arrived by d. */
  lemma {:induction false} StartsInRounds(permits: nat, longest: nat, jobs: seq<Job>, d: nat, b: nat, i: nat)
    requires permits > 0 && Schedule(permits, longest, jobs) && b + i < |jobs|
    requires jobs[b + i].delivered <= d && (b > 0 ==> jobs[b - 1].start <= d)
    ensures jobs[b + i].start <= d + RoundStart(permits, longest, permits + i)
    decreases i
  {
    var k := b + i;
    hide Schedule, RoundStart, Admitted;
    StartBound(permits, longest, jobs, k);
    InOrder(permits, longest, jobs, k);
    if i > 0 {
      StartsInRounds(permits, longest, jobs, d, b, i - 1);
      RoundStartGrows(permits, longest, permits + i - 1, permits + i);
    }
    NextRound(permits, longest, permits + i);
    if i >= permits {
      StartsInRounds(permits, longest, jobs, d, b, i - permits);
    } else if k >= permits {
      StartsInOrder(permits, longest, jobs, k - permits, b - 1);
    }
  }

  lemma NextRound(permits: nat, longest: nat, i: nat)
    requires 0 < permits <= i
    ensures RoundStart(permits, longest, i) == longest + RoundStart(permits, longest, i - permits)
  {
  }

  lemma InOrder(permits: nat, longest: nat, jobs: seq<Job>, k: nat)
    requires Schedule(permits, longest, jobs) && k < |jobs|
    ensures forall j :: 0 <= j < k ==> jobs[j].delivered <= jobs[k].delivered
  {
  }

  /**
   * A message that finds q others waiting gets its permit within q / max_concurrency + 1 rounds of the longest
   * handler.
   */
  lemma WaitIsBounded(permits: nat, longest: nat, jobs: seq<Job>, k: nat, q: nat)
    requires permits > 0 && Schedule(permits, longest, jobs) && k < |jobs|
    requires Waiting(jobs[..k], jobs[k].delivered) <= q
    ensures jobs[k].start <= jobs[k].delivered + (q / permits + 1) * longest
  {
    var d := jobs[k].delivered;
    RoundStartIsProduct(permits, longest, q);
    var b := if k >= q then k - q else 0;
    if b > 0 && jobs[b - 1].start > d {
      forall i | b - 1 <= i < k
        ensures jobs[i].start > d
      {
        StartsInOrder(permits, longest, jobs, b - 1, i);
      }
      CountAtLeast(QueuedAt(d), jobs[..k], b - 1);
      assert false;
    }
    StartsInRounds(permits, longest, jobs, d, b, k - b);
    RoundStartGrows(permits, longest, permits + (k - b), permits + q);
  }

  // ---- the bound is attained

  /**
   * n jobs that arrive at once and take the longest time each, a prompt one behind them, and a second delivery of
   * the prompt one, fetched at time `again`.
   */
  function Burst(permits: nat, longest: nat, n: nat, again: nat): (jobs: seq<Job>)
    requires permits > 0
    ensures |jobs| == n + 2
  {
    seq(n + 2, i =>
      var round := RoundStart(permits, longest, if 0 <= i < n then i else n);
      if i < n then Job(0, round, round + longest)
      else Job(if i == n then 0 else again, round, round))
  }

  lemma BurstStart(permits: nat, longest: nat, n: nat, again: nat, k: nat)
    requires permits > 0 && k < n + 2 && again <= RoundStart(permits, longest, n)
    ensures var jobs := Burst(permits, longest, n, again);
      && jobs[k].start == RoundStart(permits, longest, Min(k, n))
      && Fetched(jobs, k) == RoundStart(permits, longest, if k == 0 then 0 else Min(k - 1, n))
  {
  }

  lemma BurstIsAdmitted(permits: nat, longest: nat, n: nat, again: nat, k: nat)
    requires permits > 0 && k < n + 2 && again <= RoundStart(permits, longest, n)
    ensures Admitted(permits, Burst(permits, longest, n, again), k)
  {
    hide RoundStart, Count;
    var jobs := Burst(permits, longest, n, again);
    var i := Min(k, n);
    var start := RoundStart(permits, longest, i);
    BurstStart(permits, longest, n, again, k);
    RoundStartGrows(permits, longest, if k == 0 then 0 else Min(k - 1, n), i);
    // the handlers of earlier rounds have ended
    var ended := if i >= permits then i - permits + 1 else 0;
    forall j | 0 <= j < ended
      ensures jobs[j].end <= start
    {
      RoundStartGrows(permits, longest, j, i - permits);
      NextRound(permits, longest, i);
    }
    CountAtMost(RunningAt(start), jobs[..i], ended);
    PromptAddsNothing(jobs, i, k, start);
    if Fetched(jobs, k) < start {
      forall t: nat | Fetched(jobs, k) <= t < start
        ensures Active(jobs[..k], t) >= permits
      {
        LastRoundRuns(permits, longest, n, again, k, t);
      }
    }
  }

  lemma PromptAddsNothing(jobs: seq<Job>, i: nat, k: nat, t: nat)
    requires i <= k <= |jobs| && k <= i + 1
    requires k == i + 1 ==> jobs[i].end <= t
    ensures Active(jobs[..k], t) == Active(jobs[..i], t)
  {
    if k == i + 1 {
      assert jobs[..k][..i] == jobs[..i];
    }
  }

  /** Until the next round starts, the handlers of the last one hold all permits. */
  lemma LastRoundRuns(permits: nat, longest: nat, n: nat, again: nat, k: nat, t: nat)
    requires permits > 0 && k < n + 2 && again <= RoundStart(permits, longest, n)
    requires Fetched(Burst(permits, longest, n, again), k) <= t < RoundStart(permits, longest, Min(k, n))
    ensures Active(Burst(permits, longest, n, again)[..k], t) >= permits
  {
    hide Count;
    var jobs := Burst(permits, longest, n, again);
    BurstStart(permits, longest, n, again, k);
    assert permits <= k <= n;
    hide RoundStart;
    NextRound(permits, longest, k);
    forall j | k - permits <= j < k
      ensures jobs[j].start <= t < jobs[j].end
    {
      RoundStartGrows(permits, longest, j, k - 1);
      RoundStartGrows(permits, longest, k - permits, j);
    }
    CountAtLeast(RunningAt(t), jobs[..k], k - permits);
  }

  lemma BurstIsASchedule(permits: nat, longest: nat, n: nat, again: nat)
    requires permits > 0 && again <= RoundStart(permits, longest, n)
    ensures Schedule(permits, longest, Burst(permits, longest, n, again))
  {
    hide Admitted, RoundStart;
    forall k | 0 <= k < n + 2
      ensures Admitted(permits, Burst(permits, longest, n, again), k)
    {
      BurstIsAdmitted(permits, longest, n, again, k);
    }
  }

  lemma BurstWaiting(permits: nat, longest: nat, q: nat, again: nat)
    requires permits > 0
    ensures Waiting(Burst(permits, longest, permits + q, again)[..permits + q], 0) <= q
  {
    var queue := Burst(permits, longest, permits + q, again)[..permits + q];
    forall i | 0 <= i < permits
      ensures !QueuedAt(0)(queue[i])
    {
      assert queue[i].start == RoundStart(permits, longest, i) == 0;
    }
    CountAtMost(QueuedAt(0), queue, permits);
  }

  /** No message that finds at most q others waiting still waits for its permit when its first lease runs out. */
  ghost predicate NoLeaseLostWaiting(ackWait: nat, permits: nat, longest: nat, q: nat) {
    forall jobs: seq<Job>, k: nat ::
      k < |jobs| && Schedule(permits, longest, jobs) && Waiting(jobs[..k], jobs[k].delivered) <= q
      ==> LeaseHeld(ackWait, jobs[k].delivered, [], jobs[k].start)
  }

  /** That is guaranteed exactly when q / max_concurrency + 1 rounds of the longest handler fit in the ack wait. */
  lemma NoLeaseLostWaitingExactly(ackWait: nat, permits: nat, longest: nat, q: nat)
    requires permits > 0
    ensures NoLeaseLostWaiting(ackWait, permits, longest, q) <==> (q / permits + 1) * longest < ackWait
  {
    hide Schedule, Waiting;
    RoundStartIsProduct(permits, longest, q);
    if (q / permits + 1) * longest < ackWait {
      forall jobs: seq<Job>, k: nat |
        k < |jobs| && Schedule(permits, longest, jobs) && Waiting(jobs[..k], jobs[k].delivered) <= q
        ensures LeaseHeld(ackWait, jobs[k].delivered, [], jobs[k].start)
      {
        WaitIsBounded(permits, longest, jobs, k, q);
      }
    } else {
      var n := permits + q;
      var jobs := Burst(permits, longest, n, 0);
      BurstIsASchedule(permits, longest, n, 0);
      BurstWaiting(permits, longest, q, 0);
      assert !LeaseHeld(ackWait, jobs[n].delivered, [], jobs[n].start);
    }
  }

  /** Call and job tell the same story of the wait for a permit. */
  predicate SameWait(c: Call, job: Job) {
    c.delivered == job.delivered && c.start == job.start
  }

  /** The bound on the wait supplies the startup delay of the lease: then every lease lasts until its handler ends. */
  lemma QueuedLeaseIsKept(ackWait: nat, delays: Delays, permits: nat, longest: nat, jobs: seq<Job>, k: nat, q: nat, c: Call)
    requires permits > 0 && Schedule(permits, longest, jobs) && k < |jobs| && SameWait(c, jobs[k])
    requires Waiting(jobs[..k], jobs[k].delivered) <= q
    requires var interval := ProgressEvery(ackWait);
      && Paced(interval, c.start, c.ready, c.env, c.beats, c.returned)
      && Bounded(c.env, |c.beats|, delays.slack, delays.latency) && LossesAtMost(delays.losses, c.beats)
      && Fits(ackWait, interval, delays.(startup := (q / permits + 1) * longest))
    ensures forall t :: 0 <= t <= c.returned + delays.tail ==> LeaseHeld(ackWait, c.delivered, c.beats, t)
  {
    hide Paced, Bounded, LossesAtMost, Fits, LeaseHeld;
    WaitIsBounded(permits, longest, jobs, k, q);
    assert Fetched(jobs, k) >= jobs[k].delivered && Admitted(permits, jobs, k);
    LeaseIsKept(ackWait, ProgressEvery(ackWait), delays.(startup := (q / permits + 1) * longest), c);
  }

  // ---- backpressure alone

  /** The broker takes a waiting message back when its ack wait is over and delivers it a second time. */
  lemma TakenBackWaiting(cfg: Config, msg: Message, ackWait: nat, delays: Delays, start: nat)
      returns (run: seq<TimedLabel>)
    requires ValidConfig(cfg) && cfg.maxDeliver >= 2 && ackWait <= start
    ensures var calls := [PromptCall(0, start), PromptCall(ackWait, start)];
      OnTheClock(cfg, msg, ackWait, delays, calls, run)
    ensures NoCrash(Untimed(run)) && SettlesArrive(Untimed(run))
    ensures run != [] && run[|run| - 1].at == ackWait
    ensures TimedExec(cfg, msg, run) == World([Start(1), Start(2)], false, None)
  {
    var calls := [PromptCall(0, start), PromptCall(ackWait, start)];
    run := Extend(cfg, msg, ackWait, delays, calls, [], 0, Deliver(true));
    assert TimedExec(cfg, msg, run) == World([Start(1)], false, None);
    hide OnTheClock, TimedExec;
    run := Extend(cfg, msg, ackWait, delays, calls, run, ackWait, Expire);
    run := Extend(cfg, msg, ackWait, delays, calls, run, ackWait, Deliver(true));
  }

  /** Then both copies get permits, and the provider accepts both. */
  lemma WaitingTwice(cfg: Config, msg: Message, ackWait: nat, delays: Delays, start: nat)
      returns (run: seq<TimedLabel>)
    requires ValidConfig(cfg) && Dispatchable(cfg, msg) && cfg.maxDeliver >= 2
    requires ackWait <= start
    ensures var calls := [PromptCall(0, start), PromptCall(ackWait, start)];
      OnTheClock(cfg, msg, ackWait, delays, calls, run)
    ensures NoCrash(Untimed(run)) && SettlesArrive(Untimed(run))
    ensures Duplicates(cfg, msg, Untimed(run))
  {
    hide OnTheClock, TimedExec, Duplicates, Dispatchable;
    var calls := [PromptCall(0, start), PromptCall(ackWait, start)];
    run := TakenBackWaiting(cfg, msg, ackWait, delays, start);
    run := HandledAt(cfg, msg, ackWait, delays, calls, run, 0, start);
    run := HandledAt(cfg, msg, ackWait, delays, calls, run, 1, start);
    DuplicatesOnTheClock(cfg, msg, run);
  }

  lemma DuplicatesOnTheClock(cfg: Config, msg: Message, run: seq<TimedLabel>)
    ensures Duplicates(cfg, msg, Untimed(run)) <==>
      var ds := TimedExec(cfg, msg, run).deliveries;
      |ds| >= 2 && Dispatched(Answered(Accepted)) in ds[0].log && Dispatched(Answered(Accepted)) in ds[1].log
  {
  }

  /**
   * When the rounds do not fit in the ack wait, the wait for a permit alone makes the provider accept a message
   * twice: no crash, no loss, no delay but the wait, and both deliveries get their permits in the order of a schedule.
   */
  lemma BackpressureAloneDuplicates(cfg: Config, msg: Message, ackWait: nat, permits: nat, longest: nat, q: nat)
      returns (jobs: seq<Job>, calls: seq<Call>, run: seq<TimedLabel>)
    requires ValidConfig(cfg) && Dispatchable(cfg, msg) && cfg.maxDeliver >= 2
    requires permits > 0 && (q / permits + 1) * longest >= ackWait
    ensures var k := permits + q;
      && |jobs| == k + 2 && Schedule(permits, longest, jobs) && Waiting(jobs[..k], jobs[k].delivered) <= q
      && |calls| == 2 && SameWait(calls[0], jobs[k]) && SameWait(calls[1], jobs[k + 1])
    ensures SlowDuplicate(cfg, msg, ackWait, Delays((q / permits + 1) * longest, 0, 0, 0, 0), calls, run)
  {
    hide Schedule, Waiting, Within, OnTheClock, Duplicates, NoCrash, SettlesArrive;
    var start := (q / permits + 1) * longest;
    var delays := Delays(start, 0, 0, 0, 0);
    RoundStartIsProduct(permits, longest, q);
    jobs := Burst(permits, longest, permits + q, ackWait);
    BurstIsASchedule(permits, longest, permits + q, ackWait);
    BurstWaiting(permits, longest, q, ackWait);
    calls := [PromptCall(0, start), PromptCall(ackWait, start)];
    PromptCallIsWithin(ProgressEvery(ackWait), delays, 0, start);
    PromptCallIsWithin(ProgressEvery(ackWait), delays, ackWait, start);
    run := WaitingTwice(cfg, msg, ackWait, delays, start);
  }
}
