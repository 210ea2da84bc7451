/** Ack-progress heartbeats: the ticker loop around a provider call, and the ack lease it keeps alive. Times are nanoseconds. */
module AckProgress {
  import opened Common

  const SECOND: nat := 1_000_000_000

  function ProgressEvery(ackWait: nat): nat {
    Max(ackWait / 3, 5 * SECOND)
  }

  /** A tick polled no more than 5 ms after its deadline is on time for the interval timer. */
  const GRACE: nat := 5_000_000

  /** One heartbeat: its tick's deadline, when it is sent, whether it is lost, and when it reaches the broker otherwise. */
  datatype Beat = Beat(due: nat, sent: nat, lost: bool, arrived: nat)

  /**
   * What the loop does not control. `slack(k)` is how long after its deadline tick k is polled (this includes the
   * time spent in the previous heartbeat's own await), `futureFirst(k)` breaks the tie when tick and future are
   * both ready.
   */
  datatype Environment = Environment(
    slack: nat -> nat, latency: nat -> nat, lost: nat -> bool, futureFirst: nat -> bool)

  function SentBefore(start: nat, beats: seq<Beat>, k: nat): nat
    requires k <= |beats|
  {
    if k == 0 then start else beats[k - 1].sent
  }

  /** The deadline of tick k: a late tick delays the ones after it, a tick on time does not. */
  function DueAt(interval: nat, start: nat, beats: seq<Beat>, k: nat): nat
    requires k <= |beats|
  {
    interval +
    if k == 0 then start
    else if beats[k - 1].sent > beats[k - 1].due + GRACE then beats[k - 1].sent
    else beats[k - 1].due
  }

  predicate Follows(interval: nat, start: nat, ready: nat, env: Environment, beats: seq<Beat>, k: nat)
    requires k < |beats|
  {
    && SentBefore(start, beats, k) < ready
    && beats[k].due == DueAt(interval, start, beats, k)
    && beats[k].sent == beats[k].due + env.slack(k)
    && beats[k].arrived == beats[k].sent + env.latency(k)
    && beats[k].lost == env.lost(k)
  }

  predicate Ticked(interval: nat, start: nat, ready: nat, env: Environment, beats: seq<Beat>) {
    forall k {:trigger Follows(interval, start, ready, env, beats, k)} ::
      0 <= k < |beats| ==> Follows(interval, start, ready, env, beats, k)
  }

  /** The heartbeats follow the ticker with delayed missed ticks, and the call returns before the next one. */
  predicate Paced(interval: nat, start: nat, ready: nat, env: Environment, beats: seq<Beat>, returned: nat) {
    var last := SentBefore(start, beats, |beats|);
    && Ticked(interval, start, ready, env, beats)
    && returned == Max(ready, last)
    && returned <= Max(last, DueAt(interval, start, beats, |beats|) + env.slack(|beats|))
  }

  lemma TickedAppend(interval: nat, start: nat, ready: nat, env: Environment, beats: seq<Beat>, b: Beat)
    requires Ticked(interval, start, ready, env, beats)
    requires Follows(interval, start, ready, env, beats + [b], |beats|)
    ensures Ticked(interval, start, ready, env, beats + [b])
  {
    forall k | 0 <= k < |beats|
      ensures Follows(interval, start, ready, env, beats + [b], k)
    {
      assert Follows(interval, start, ready, env, beats, k);
    }
  }

  /**
   * run_with_ack_progress for a future that is ready at time `ready`; an answer that comes while a heartbeat is
   * being sent is ready when that is over.
   */
  method RunWithAckProgress(interval: nat, start: nat, ready: nat, env: Environment)
      returns (beats: seq<Beat>, returned: nat)
    requires interval > 0
    ensures Paced(interval, start, ready, env, beats, returned)
    ensures (forall k :: env.futureFirst(k)) ==>
      returned == Max(ready, start) && forall b :: b in beats ==> b.sent < ready
  {
    beats := [];
    var deadline, tick := start, start;  // the first tick of the interval completes at once
    while tick < ready
      invariant tick == SentBefore(start, beats, |beats|) && deadline <= tick
      invariant DueAt(interval, start, beats, |beats|) == interval + if tick > deadline + GRACE then tick else deadline
      invariant Ticked(interval, start, ready, env, beats)
      invariant (forall k :: env.futureFirst(k)) ==> (beats == [] || tick < ready) && forall b :: b in beats ==> b.sent < ready
      decreases ready - deadline
    {
      var k := |beats|;
      var due := interval + if tick > deadline + GRACE then tick else deadline;
      var next := due + env.slack(k);
      if ready <= next && env.futureFirst(k) {
        return beats, ready;
      }
      var beat := Beat(due, next, env.lost(k), next + env.latency(k));
      TickedAppend(interval, start, ready, env, beats, beat);
      beats := beats + [beat];
      deadline, tick := due, next;
    }
    returned := tick;
  }

  // ---- the rate of the heartbeats

  /** Deadline k lies k + 1 intervals after the start, and later by no more than the ticks before it were polled late. */
  lemma {:induction false} DueFrom(interval: nat, start: nat, ready: nat, env: Environment, beats: seq<Beat>, k: nat, slack: nat)
    requires Ticked(interval, start, ready, env, beats) && k <= |beats|
    requires forall j :: 0 <= j < |beats| ==> env.slack(j) <= slack
    ensures start + (k + 1) * interval <= DueAt(interval, start, beats, k)
    ensures DueAt(interval, start, beats, k) <= start + (k + 1) * interval + k * slack
  {
    if k > 0 {
      DueFrom(interval, start, ready, env, beats, k - 1, slack);
      assert Follows(interval, start, ready, env, beats, k - 1);
      OneMore(k, interval);
      OneMore(k - 1, slack);
    }
  }

  lemma OneMore(n: nat, x: nat)
    ensures (n + 1) * x == n * x + x
  {
  }

  /** The largest of so many polling delays. */
  function LargestSlack(env: Environment, n: nat): (slack: nat)
    ensures forall j :: 0 <= j < n ==> env.slack(j) <= slack
  {
    if n == 0 then 0 else Max(env.slack(n - 1), LargestSlack(env, n - 1))
  }

  /** The length of a call in heartbeats: all that it sends fit in, and no further one does. */
  lemma CallLength(interval: nat, start: nat, ready: nat, env: Environment, beats: seq<Beat>, returned: nat, slack: nat)
    requires Paced(interval, start, ready, env, beats, returned)
    requires forall k :: 0 <= k <= |beats| ==> env.slack(k) <= slack
    ensures |beats| * interval <= returned - start
    ensures returned - start <= (|beats| + 1) * interval + |beats| * slack + slack
  {
    var n := |beats|;
    DueFrom(interval, start, ready, env, beats, n, slack);
    OneMore(n, interval);
    if n > 0 {
      DueFrom(interval, start, ready, env, beats, n - 1, slack);
      OneMore(n - 1, slack);
      assert Follows(interval, start, ready, env, beats, n - 1);
    }
  }

  /**
   * A call that lasts T sends at most T / (ack_wait / 3) heartbeats and at most one in five seconds; and if no tick
   * is polled later than `slack`, it misses none: T is at most one late period per heartbeat sent and one more.
   */
  lemma HeartbeatRate(ackWait: nat, start: nat, ready: nat, env: Environment, beats: seq<Beat>, returned: nat, slack: nat)
    requires Paced(ProgressEvery(ackWait), start, ready, env, beats, returned)
    ensures |beats| * (ackWait / 3) <= returned - start
    ensures |beats| * (5 * SECOND) <= returned - start
    ensures (forall k :: 0 <= k <= |beats| ==> env.slack(k) <= slack) ==>
      || returned - start <= (|beats| + 1) * (ackWait / 3 + slack)
      || returned - start <= (|beats| + 1) * (5 * SECOND + slack)
  {
    hide Paced;
    var n, interval := |beats|, ProgressEvery(ackWait);
    CallLength(interval, start, ready, env, beats, returned, LargestSlack(env, n + 1));
    ProductGrows(n, ackWait / 3, interval);
    ProductGrows(n, 5 * SECOND, interval);
    if forall k :: 0 <= k <= n ==> env.slack(k) <= slack {
      CallLength(interval, start, ready, env, beats, returned, slack);
      Distribute(n, interval, slack);
    }
  }

  lemma Distribute(n: nat, x: nat, y: nat)
    ensures (n + 1) * (x + y) == (n + 1) * x + n * y + y
  {
  }

  lemma ProductGrows(n: nat, x: nat, y: nat)
    requires x <= y
    ensures n * x <= n * y
  {
  }

  // ---- the lease

  /** The broker still holds the message for this delivery at time t; an extension counts once it has arrived. */
  predicate LeaseHeld(ackWait: nat, delivered: nat, beats: seq<Beat>, t: nat) {
    || t < delivered + ackWait
    || exists k :: 0 <= k < |beats| && !beats[k].lost && beats[k].arrived < t < beats[k].arrived + ackWait
  }

  /** The time line of one delivery: it reaches the worker, gets its permit, and its provider call runs and returns. */
  datatype Call = Call(delivered: nat, start: nat, ready: nat, env: Environment, beats: seq<Beat>, returned: nat)

  /**
   * Bounds on what can go slowly: the wait for a permit and the screening, the polling of a tick, the way of a
   * heartbeat, and the time from the end of the call to the end of the handler; and how many heartbeats in a row
   * can be lost.
   */
  datatype Delays = Delays(startup: nat, slack: nat, latency: nat, tail: nat, losses: nat)

  predicate KeptWithin(beats: seq<Beat>, j: nat, m: nat) {
    exists k :: 0 <= k < |beats| && j <= k <= j + m && !beats[k].lost
  }

  /** Never more than m heartbeats in a row are lost. */
  predicate LossesAtMost(m: nat, beats: seq<Beat>) {
    forall j :: 0 <= j < |beats| - m ==> KeptWithin(beats, j, m)
  }

  predicate Bounded(env: Environment, n: nat, slack: nat, latency: nat) {
    forall k :: 0 <= k <= n ==> env.slack(k) <= slack && env.latency(k) <= latency
  }

  predicate Within(interval: nat, delays: Delays, c: Call) {
    && c.delivered <= c.start <= c.delivered + delays.startup
    && Paced(interval, c.start, c.ready, c.env, c.beats, c.returned)
    && Bounded(c.env, |c.beats|, delays.slack, delays.latency)
    && LossesAtMost(delays.losses, c.beats)
  }

  /** How far apart two deadlines can be: only a tick later than the grace period delays the next. */
  function Stride(interval: nat, slack: nat): nat {
    interval + if slack > GRACE then slack else 0
  }

  /** n strides, by repeated addition. */
  function Span(n: nat, stride: nat): nat {
    if n == 0 then 0 else stride + Span(n - 1, stride)
  }

  lemma {:induction false} SpanIsProduct(n: nat, stride: nat)
    ensures Span(n, stride) == n * stride
  {
    if n > 0 {
      SpanIsProduct(n - 1, stride);
    }
  }

  /** The longest time from the start of a call, or from a heartbeat, to the next heartbeat that is not lost. */
  function LongestSilence(interval: nat, delays: Delays): nat {
    interval + delays.losses * Stride(interval, delays.slack) + delays.slack
  }

  /** The delays add up to less than the ack wait. */
  predicate Fits(ackWait: nat, interval: nat, delays: Delays) {
    delays.startup + LongestSilence(interval, delays) + Max(delays.latency, delays.tail) < ackWait
  }

  lemma BeatIsTimely(interval: nat, delays: Delays, c: Call, k: nat)
    requires Within(interval, delays, c) && k < |c.beats|
    ensures var b, due, next := c.beats[k], DueAt(interval, c.start, c.beats, k), DueAt(interval, c.start, c.beats, k + 1);
      && due <= b.sent <= due + delays.slack
      && b.sent <= b.arrived <= b.sent + delays.latency
      && due + interval <= next <= due + Stride(interval, delays.slack)
      && next <= b.sent + interval
  {
    assert Follows(interval, c.start, c.ready, c.env, c.beats, k);
  }

  lemma CallReturnsInTime(interval: nat, delays: Delays, c: Call)
    requires Within(interval, delays, c)
    ensures c.returned <= DueAt(interval, c.start, c.beats, |c.beats|) + delays.slack
  {
    if c.beats != [] {
      BeatIsTimely(interval, delays, c, |c.beats| - 1);
    }
  }

  predicate ExtendedAt(delivered: nat, beats: seq<Beat>, good: nat, t: nat) {
    good == delivered || exists k :: 0 <= k < |beats| && !beats[k].lost && beats[k].arrived == good && good < t
  }

  /** The search behind LeaseIsKept: the last extension came at `good`, and the n beats before j are lost. */
  lemma {:induction false} HeldFrom(ackWait: nat, interval: nat, delays: Delays, c: Call, t: nat, j: nat, good: nat, n: nat)
    requires Within(interval, delays, c)
    requires j <= |c.beats| && n <= delays.losses && n <= j
    requires forall k :: j - n <= k < j ==> c.beats[k].lost
    requires ExtendedAt(c.delivered, c.beats, good, t)
    requires DueAt(interval, c.start, c.beats, j) + Span(delays.losses - n, Stride(interval, delays.slack))
             + delays.slack + Max(delays.latency, delays.tail) < good + ackWait
    requires interval + Span(delays.losses, Stride(interval, delays.slack))
             + delays.slack + Max(delays.latency, delays.tail) < ackWait
    requires t <= c.returned + delays.tail
    ensures LeaseHeld(ackWait, c.delivered, c.beats, t)
    decreases |c.beats| - j
  {
    hide Within, Stride, DueAt;
    if j == |c.beats| {
      CallReturnsInTime(interval, delays, c);
    } else {
      BeatIsTimely(interval, delays, c, j);
      if c.beats[j].lost {
        if n == delays.losses {
          TooManyLost(interval, delays, c, j);
          assert false;
        }
        HeldFrom(ackWait, interval, delays, c, t, j + 1, good, n + 1);
      } else if c.beats[j].arrived < t {
        HeldFrom(ackWait, interval, delays, c, t, j + 1, c.beats[j].arrived, 0);
      }
    }
  }

  lemma TooManyLost(interval: nat, delays: Delays, c: Call, j: nat)
    requires Within(interval, delays, c) && delays.losses <= j < |c.beats|
    ensures exists k :: j - delays.losses <= k <= j && !c.beats[k].lost
  {
    assert KeptWithin(c.beats, j - delays.losses, delays.losses);
  }

  /**
   * The lease is held from delivery until the handler has ended, however long the call takes, if the delays add up
   * to less than the ack wait.
   */
  lemma LeaseIsKept(ackWait: nat, interval: nat, delays: Delays, c: Call)
    requires Within(interval, delays, c) && Fits(ackWait, interval, delays)
    ensures forall t :: 0 <= t <= c.returned + delays.tail ==> LeaseHeld(ackWait, c.delivered, c.beats, t)
  {
    SpanIsProduct(delays.losses, Stride(interval, delays.slack));
    forall t | 0 <= t <= c.returned + delays.tail
      ensures LeaseHeld(ackWait, c.delivered, c.beats, t)
    {
      HeldFrom(ackWait, interval, delays, c, t, 0, c.delivered, 0);
    }
  }

  // ---- the bound is exact

  /** The deadline of tick k when every tick before it is as late as it may be. */
  function SlowDue(interval: nat, delays: Delays, k: nat): nat {
    delays.startup + interval + Span(k, Stride(interval, delays.slack))
  }

  function SlowBeats(interval: nat, delays: Delays, n: nat): (beats: seq<Beat>)
    ensures |beats| == n
    ensures forall k :: 0 <= k < n ==>
      var due := SlowDue(interval, delays, k);
      beats[k] == Beat(due, due + delays.slack, k < delays.losses, due + delays.slack + delays.latency)
  {
    if n == 0 then []
    else
      var due := SlowDue(interval, delays, n - 1);
      SlowBeats(interval, delays, n - 1)
        + [Beat(due, due + delays.slack, n - 1 < delays.losses, due + delays.slack + delays.latency)]
  }

  /** Everything is as slow as it may be, the first heartbeats are lost, and the call sends n of them. */
  function SlowCall(interval: nat, delays: Delays, n: nat): Call {
    var env := Environment(_ => delays.slack, _ => delays.latency, k => k < delays.losses, _ => true);
    var ready := SlowDue(interval, delays, n) + delays.slack;
    Call(0, delays.startup, ready, env, SlowBeats(interval, delays, n), ready)
  }

  lemma {:induction false} SpanGrows(k: nat, n: nat, stride: nat)
    requires k <= n && stride > 0
    ensures Span(k, stride) + (n - k) <= Span(n, stride)
  {
    if k < n {
      SpanGrows(k, n - 1, stride);
    }
  }

  lemma SlowCallIsWithin(interval: nat, delays: Delays, n: nat)
    requires interval > 0
    ensures Within(interval, delays, SlowCall(interval, delays, n))
  {
    var c := SlowCall(interval, delays, n);
    var stride := Stride(interval, delays.slack);
    forall k | 0 <= k <= n
      ensures DueAt(interval, c.start, c.beats, k) == SlowDue(interval, delays, k)
      ensures SentBefore(c.start, c.beats, k) < c.ready
    {
      SpanGrows(k, n, stride);
      if k > 0 {
        SpanGrows(k - 1, n, stride);
      }
    }
    forall k | 0 <= k < n
      ensures Follows(interval, c.start, c.ready, c.env, c.beats, k)
    {
      SpanGrows(k, n, stride);
    }
    forall j | 0 <= j < |c.beats| - delays.losses
      ensures KeptWithin(c.beats, j, delays.losses)
    {
      assert !c.beats[j + delays.losses].lost;
    }
  }

  /** When the lease of a slow call is found to have run out. */
  function SlowExpiry(interval: nat, delays: Delays): nat {
    delays.startup + LongestSilence(interval, delays) + Max(delays.latency, delays.tail)
  }

  /** If the delays do not fit, a call within them loses its lease: while it runs, or else in the tail after it. */
  lemma SlowLeaseExpires(ackWait: nat, interval: nat, delays: Delays) returns (c: Call)
    requires interval > 0 && !Fits(ackWait, interval, delays)
    ensures Within(interval, delays, c) && c.delivered == 0
    ensures var t := SlowExpiry(interval, delays);
      c.start <= t <= c.returned + delays.tail && !LeaseHeld(ackWait, c.delivered, c.beats, t)
  {
    var stride := Stride(interval, delays.slack);
    var t := SlowExpiry(interval, delays);
    var n := if delays.latency <= delays.tail then delays.losses else delays.losses + t;
    c := SlowCall(interval, delays, n);
    SlowCallIsWithin(interval, delays, n);
    SpanIsProduct(delays.losses, stride);
    SpanGrows(delays.losses, n, stride);
    forall k | 0 <= k < |c.beats| && !c.beats[k].lost
      ensures c.beats[k].arrived >= t
    {
      SpanGrows(delays.losses, k, stride);
    }
  }

  ghost predicate LeasesAlwaysHeld(ackWait: nat, interval: nat, delays: Delays) {
    forall c: Call, t: nat :: Within(interval, delays, c) && t <= c.returned + delays.tail
      ==> LeaseHeld(ackWait, c.delivered, c.beats, t)
  }

  /** All calls within the delays keep their lease to the end exactly when the delays add up to less than the ack wait. */
  lemma LeaseBoundIsExact(ackWait: nat, interval: nat, delays: Delays)
    requires interval > 0
    ensures LeasesAlwaysHeld(ackWait, interval, delays) <==> Fits(ackWait, interval, delays)
  {
    hide Within, LeaseHeld, Fits;
    if Fits(ackWait, interval, delays) {
      forall c: Call, t: nat | Within(interval, delays, c) && t <= c.returned + delays.tail
        ensures LeaseHeld(ackWait, c.delivered, c.beats, t)
      {
        LeaseIsKept(ackWait, interval, delays, c);
      }
    } else {
      var c := SlowLeaseExpires(ackWait, interval, delays);
    }
  }

  /** From 15 s of ack wait on, a third of it may be lost to delays and one heartbeat in a row may be lost. */
  lemma OneLostBeatIsTolerated(ackWait: nat, delays: Delays)
    requires ackWait >= 15 * SECOND && delays.losses <= 1
    requires delays.startup + 2 * delays.slack + Max(delays.latency, delays.tail) < ackWait / 3
    ensures LeasesAlwaysHeld(ackWait, ProgressEvery(ackWait), delays)
  {
    assert delays.losses * Stride(ProgressEvery(ackWait), delays.slack) <= Stride(ProgressEvery(ackWait), delays.slack);
    LeaseBoundIsExact(ackWait, ProgressEvery(ackWait), delays);
  }

  /** Even a perfectly prompt worker keeps the lease of every call exactly when ack_wait exceeds five seconds. */
  lemma LeaseNeedsFiveSeconds(ackWait: nat)
    ensures LeasesAlwaysHeld(ackWait, ProgressEvery(ackWait), Delays(0, 0, 0, 0, 0)) <==> ackWait > 5 * SECOND
  {
    LeaseBoundIsExact(ackWait, ProgressEvery(ackWait), Delays(0, 0, 0, 0, 0));
  }
}
