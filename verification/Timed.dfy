/**
 * The delivery protocol on a clock: calls take time, heartbeats extend leases, and the broker takes a message back
 * only when its lease has run out.
 */
module Timed {
  import opened Common
  import opened Dispositions
  import opened Handler
  import opened Protocol
  import opened AckProgress
  import opened Faults

  datatype TimedLabel = TimedLabel(at: nat, event: Label)

  function Untimed(run: seq<TimedLabel>): (labels: seq<Label>)
    ensures |labels| == |run|
  {
    if run == [] then [] else Untimed(run[..|run| - 1]) + [run[|run| - 1].event]
  }

  function TimedExec(cfg: Config, msg: Message, run: seq<TimedLabel>): World {
    Exec(cfg, msg, Untimed(run))
  }

  /** What the clock demands of a label: `calls[k]` is the time line of delivery k + 1. */
  predicate Timely(ackWait: nat, delays: Delays, calls: seq<Call>, w: World, l: TimedLabel) {
    var ds := w.deliveries;
    && |ds| <= |calls|
    // a handler has ended by `tail` after its call
    && (forall k :: 0 <= k < |ds| ==> Done(ds[k]) || l.at <= calls[k].returned + delays.tail)
    && match l.event
       case Deliver(_) => |ds| < |calls| && calls[|ds|].delivered == l.at
       // the lease of a handler at work runs out only when no heartbeat has extended it
       case Expire =>
         ds != [] && !Done(ds[|ds| - 1]) ==>
           !LeaseHeld(ackWait, calls[|ds| - 1].delivered, calls[|ds| - 1].beats, l.at)
       // a handler leaves the queue at its start, and its call is answered when it returns
       case Act(k, _) =>
         k < |ds| ==>
           && (ds[k].phase.Queued? ==> l.at == calls[k].start)
           && (ds[k].phase.Dispatching? ==> l.at == calls[k].returned)
       case Crash(_) => true
  }

  /** A run on the clock: time does not go back, and every label is timely. */
  predicate OnTheClock(cfg: Config, msg: Message, ackWait: nat, delays: Delays, calls: seq<Call>, run: seq<TimedLabel>) {
    run == [] ||
    (var before := run[..|run| - 1];
     && OnTheClock(cfg, msg, ackWait, delays, calls, before)
     && (before != [] ==> before[|before| - 1].at <= run[|run| - 1].at)
     && Timely(ackWait, delays, calls, TimedExec(cfg, msg, before), run[|run| - 1]))
  }

  /** A run on the clock of a worker whose heartbeats follow the code and whose delays stay within their bounds. */
  predicate TimedRun(cfg: Config, msg: Message, ackWait: nat, delays: Delays, calls: seq<Call>, run: seq<TimedLabel>) {
    && (forall k :: 0 <= k < |calls| ==> Within(ProgressEvery(ackWait), delays, calls[k]))
    && OnTheClock(cfg, msg, ackWait, delays, calls, run)
  }

  /** The last handler is not at work when an expiry is timely. */
  lemma ExpiryMeansDone(ackWait: nat, delays: Delays, calls: seq<Call>, w: World, l: TimedLabel)
    requires Timely(ackWait, delays, calls, w, l) && l.event.Expire?
    requires forall k :: 0 <= k < |calls| ==> Within(ProgressEvery(ackWait), delays, calls[k])
    requires Fits(ackWait, ProgressEvery(ackWait), delays)
    ensures w.deliveries != [] ==> Done(w.deliveries[|w.deliveries| - 1])
  {
    hide Within, LeaseHeld, Fits;
    if w.deliveries != [] {
      LeaseIsKept(ackWait, ProgressEvery(ackWait), delays, calls[|w.deliveries| - 1]);
    }
  }

  /**
   * The heartbeats keep the leases: if the delays fit the ack wait, then in every run on the clock, whatever crashes
   * and whatever is lost, no lease runs out under an active handler and at most one handler works on the message.
   */
  lemma {:induction false} HeartbeatsKeepLeases(
      cfg: Config, msg: Message, ackWait: nat, delays: Delays, calls: seq<Call>, run: seq<TimedLabel>)
    requires TimedRun(cfg, msg, ackWait, delays, calls, run) && Fits(ackWait, ProgressEvery(ackWait), delays)
    ensures LeasesKept(cfg, msg, Untimed(run))
    ensures AtMostOneActive(TimedExec(cfg, msg, run).deliveries)
  {
    hide Within, Fits, Step, Timely;
    if run != [] {
      var before := run[..|run| - 1];
      var l := run[|run| - 1];
      HeartbeatsKeepLeases(cfg, msg, ackWait, delays, calls, before);
      OneHandlerAtATime(cfg, msg, Untimed(before));
      if l.event.Expire? {
        ExpiryMeansDone(ackWait, delays, calls, TimedExec(cfg, msg, before), l);
      }
      assert Untimed(run)[..|run| - 1] == Untimed(before);
    }
    OneHandlerAtATime(cfg, msg, Untimed(run));
  }

  /** On the clock, with settlements arriving and delays that fit, a terminal outcome is the last provider call. */
  lemma TimedTerminalOutcomeIsLastCall(cfg: Config, msg: Message, ackWait: nat, delays: Delays,
      calls: seq<Call>, run: seq<TimedLabel>, i: nat)
    requires ValidConfig(cfg) && TimedRun(cfg, msg, ackWait, delays, calls, run)
    requires Fits(ackWait, ProgressEvery(ackWait), delays)
    requires NoCrash(Untimed(run)) && SettlesArrive(Untimed(run))
    requires i < |TimedExec(cfg, msg, run).deliveries| && TerminalCall(TimedExec(cfg, msg, run).deliveries[i])
    ensures i == |TimedExec(cfg, msg, run).deliveries| - 1
    ensures Done(TimedExec(cfg, msg, run).deliveries[i]) ==> TimedExec(cfg, msg, run).settled.Some?
  {
    HeartbeatsKeepLeases(cfg, msg, ackWait, delays, calls, run);
    TerminalOutcomeIsLastCall(cfg, msg, Untimed(run), i);
  }

  // ---- and without the bound, they do not

  /** A fault-free run on the clock in which the provider accepts the message in two deliveries. */
  ghost predicate SlowDuplicate(cfg: Config, msg: Message, ackWait: nat, delays: Delays, calls: seq<Call>, run: seq<TimedLabel>) {
    && TimedRun(cfg, msg, ackWait, delays, calls, run)
    && NoCrash(Untimed(run)) && SettlesArrive(Untimed(run))
    && Duplicates(cfg, msg, Untimed(run))
  }

  lemma UntimedAppend(run: seq<TimedLabel>, l: TimedLabel)
    ensures Untimed(run + [l]) == Untimed(run) + [l.event]
  {
    assert (run + [l])[..|run|] == run;
  }

  lemma ClockAppend(cfg: Config, msg: Message, ackWait: nat, delays: Delays, calls: seq<Call>, run: seq<TimedLabel>, l: TimedLabel)
    requires OnTheClock(cfg, msg, ackWait, delays, calls, run)
    requires run != [] ==> run[|run| - 1].at <= l.at
    requires Timely(ackWait, delays, calls, TimedExec(cfg, msg, run), l)
    ensures OnTheClock(cfg, msg, ackWait, delays, calls, run + [l])
  {
    hide Timely, TimedExec;
    assert (run + [l])[..|run|] == run;
  }

  /** One more label on the clock. */
  lemma Extend(cfg: Config, msg: Message, ackWait: nat, delays: Delays, calls: seq<Call>, run: seq<TimedLabel>,
      at: nat, event: Label) returns (longer: seq<TimedLabel>)
    requires OnTheClock(cfg, msg, ackWait, delays, calls, run)
    requires NoCrash(Untimed(run)) && SettlesArrive(Untimed(run))
    requires run != [] ==> run[|run| - 1].at <= at
    requires Timely(ackWait, delays, calls, TimedExec(cfg, msg, run), TimedLabel(at, event))
    requires !event.Crash? && (event.Act? ==> event.answers.reached)
    ensures OnTheClock(cfg, msg, ackWait, delays, calls, longer)
    ensures NoCrash(Untimed(longer)) && SettlesArrive(Untimed(longer))
    ensures longer != [] && longer[|longer| - 1].at == at
    ensures TimedExec(cfg, msg, longer) == Step(cfg, msg, TimedExec(cfg, msg, run), event)
  {
    hide Step, Timely, OnTheClock, Untimed, Exec, NoCrash, SettlesArrive;
    longer := run + [TimedLabel(at, event)];
    ClockAppend(cfg, msg, ackWait, delays, calls, run, TimedLabel(at, event));
    UntimedAppend(run, TimedLabel(at, event));
    var labels := RunAppend(cfg, msg, Untimed(run), event);
  }

  /** No handler has overrun at time t. */
  predicate NoneOverrun(delays: Delays, calls: seq<Call>, ds: seq<Delivery>, t: nat) {
    |ds| <= |calls| && forall k :: 0 <= k < |ds| ==> Done(ds[k]) || t <= calls[k].returned + delays.tail
  }

  /** A queued delivery with a prompt call, handled from admission to settlement at time t: its outcome is accepted. */
  lemma HandledAt(cfg: Config, msg: Message, ackWait: nat, delays: Delays, calls: seq<Call>, run: seq<TimedLabel>,
      k: nat, t: nat) returns (longer: seq<TimedLabel>)
    requires ValidConfig(cfg) && Dispatchable(cfg, msg) && OnTheClock(cfg, msg, ackWait, delays, calls, run)
    requires NoCrash(Untimed(run)) && SettlesArrive(Untimed(run))
    requires run != [] && run[|run| - 1].at <= t
    requires var ds := TimedExec(cfg, msg, run).deliveries;
      && NoneOverrun(delays, calls, ds, t)
      && k < |ds| && ds[k] == Start(ds[k].attempt) && calls[k].start == calls[k].returned == t
    ensures OnTheClock(cfg, msg, ackWait, delays, calls, longer)
    ensures NoCrash(Untimed(longer)) && SettlesArrive(Untimed(longer))
    ensures longer != [] && longer[|longer| - 1].at == t
    ensures var ds, ds' := TimedExec(cfg, msg, run).deliveries, TimedExec(cfg, msg, longer).deliveries;
      && |ds'| == |ds| && (forall j :: 0 <= j < |ds| && j != k ==> ds'[j] == ds[j])
      && Done(ds'[k]) && Dispatched(Answered(Accepted)) in ds'[k].log
  {
    hide OnTheClock, TimedExec, LeaseHeld, Screen, JobValid;
    var attempt := TimedExec(cfg, msg, run).deliveries[k].attempt;
    longer := Extend(cfg, msg, ackWait, delays, calls, run, t, Act(k, ACCEPTED));
    assert TimedExec(cfg, msg, longer).deliveries[k] == Delivery(attempt, Dispatching, []);
    longer := Extend(cfg, msg, ackWait, delays, calls, longer, t, Act(k, ACCEPTED));
    assert TimedExec(cfg, msg, longer).deliveries[k]
        == Delivery(attempt, PublishingResult(Accepted), [Dispatched(Answered(Accepted))]);
    longer := Extend(cfg, msg, ackWait, delays, calls, longer, t, Act(k, ACCEPTED));
    longer := Extend(cfg, msg, ackWait, delays, calls, longer, t, Act(k, ACCEPTED));
  }

  /** A whole prompt second delivery at time t, whatever the first handler is doing: its outcome is accepted. */
  lemma SecondDelivery(cfg: Config, msg: Message, ackWait: nat, delays: Delays, calls: seq<Call>, run: seq<TimedLabel>, t: nat)
      returns (longer: seq<TimedLabel>)
    requires ValidConfig(cfg) && Dispatchable(cfg, msg) && cfg.maxDeliver >= 2
    requires OnTheClock(cfg, msg, ackWait, delays, calls, run)
    requires NoCrash(Untimed(run)) && SettlesArrive(Untimed(run))
    requires run != [] && run[|run| - 1].at <= t
    requires |calls| == 2 && calls[1].delivered == calls[1].start == calls[1].returned == t
    requires var w := TimedExec(cfg, msg, run);
      && |w.deliveries| == 1 && w.settled.None?
      && t <= calls[0].returned + delays.tail && !LeaseHeld(ackWait, calls[0].delivered, calls[0].beats, t)
    ensures OnTheClock(cfg, msg, ackWait, delays, calls, longer)
    ensures NoCrash(Untimed(longer)) && SettlesArrive(Untimed(longer))
    ensures longer != [] && longer[|longer| - 1].at == t
    ensures var ds := TimedExec(cfg, msg, longer).deliveries;
      && |ds| == 2 && ds[0] == TimedExec(cfg, msg, run).deliveries[0]
      && Done(ds[1]) && Dispatched(Answered(Accepted)) in ds[1].log
  {
    hide OnTheClock, TimedExec, LeaseHeld;
    var d := TimedExec(cfg, msg, run).deliveries[0];
    longer := Extend(cfg, msg, ackWait, delays, calls, run, t, Expire);
    longer := Extend(cfg, msg, ackWait, delays, calls, longer, t, Deliver(true));
    assert TimedExec(cfg, msg, longer) == World([d, Start(2)], false, None);
    longer := HandledAt(cfg, msg, ackWait, delays, calls, longer, 1, t);
  }

  /** A message delivered at time 0 and admitted at its start. */
  lemma FirstDelivery(cfg: Config, msg: Message, ackWait: nat, delays: Delays, calls: seq<Call>)
      returns (run: seq<TimedLabel>)
    requires ValidConfig(cfg) && Dispatchable(cfg, msg)
    requires |calls| == 2 && calls[0].delivered == 0 && calls[0].start <= calls[0].returned
    ensures OnTheClock(cfg, msg, ackWait, delays, calls, run)
    ensures NoCrash(Untimed(run)) && SettlesArrive(Untimed(run))
    ensures run != [] && run[|run| - 1].at == calls[0].start
    ensures TimedExec(cfg, msg, run) == World([Delivery(1, Dispatching, [])], false, None)
  {
    hide Screen, JobValid;
    run := Extend(cfg, msg, ackWait, delays, calls, [], 0, Deliver(true));
    assert TimedExec(cfg, msg, run) == World([Start(1)], false, None);
    hide OnTheClock, TimedExec;
    run := Extend(cfg, msg, ackWait, delays, calls, run, calls[0].start, Act(0, ACCEPTED));
  }

  /** The provider's answer to the first delivery. */
  lemma FirstAnswer(cfg: Config, msg: Message, ackWait: nat, delays: Delays, calls: seq<Call>, run: seq<TimedLabel>)
      returns (longer: seq<TimedLabel>)
    requires Dispatchable(cfg, msg) && OnTheClock(cfg, msg, ackWait, delays, calls, run)
    requires NoCrash(Untimed(run)) && SettlesArrive(Untimed(run))
    requires calls != [] && run != [] && run[|run| - 1].at <= calls[0].returned
    requires var ds := TimedExec(cfg, msg, run).deliveries;
      && ds != [] && |ds| <= |calls| && ds[0] == Delivery(1, Dispatching, [])
      && forall k :: 1 <= k < |ds| ==> Done(ds[k])
    ensures OnTheClock(cfg, msg, ackWait, delays, calls, longer)
    ensures NoCrash(Untimed(longer)) && SettlesArrive(Untimed(longer))
    ensures longer != [] && longer[|longer| - 1].at == calls[0].returned
    ensures var d := Delivery(1, PublishingResult(Accepted), [Dispatched(Answered(Accepted))]);
      TimedExec(cfg, msg, longer)
        == TimedExec(cfg, msg, run).(deliveries := TimedExec(cfg, msg, run).deliveries[0 := d])
  {
    hide OnTheClock, TimedExec, Screen, JobValid;
    longer := Extend(cfg, msg, ackWait, delays, calls, run, calls[0].returned, Act(0, ACCEPTED));
    assert [] + [Dispatched(Answered(Accepted))] == [Dispatched(Answered(Accepted))];
  }

  /** A call that is answered at once when its handler starts. */
  function PromptCall(delivered: nat, start: nat): Call {
    Call(delivered, start, start, Environment(_ => 0, _ => 0, _ => false, _ => true), [], start)
  }

  lemma PromptCallIsWithin(interval: nat, delays: Delays, delivered: nat, start: nat)
    requires delivered <= start <= delivered + delays.startup
    ensures Within(interval, delays, PromptCall(delivered, start))
  {
  }

  /** If the delays do not fit, they alone make the provider accept the message twice. */
  lemma SlowWorkerDuplicates(cfg: Config, msg: Message, ackWait: nat, delays: Delays)
      returns (calls: seq<Call>, run: seq<TimedLabel>)
    requires ValidConfig(cfg) && Dispatchable(cfg, msg) && cfg.maxDeliver >= 2
    requires !Fits(ackWait, ProgressEvery(ackWait), delays)
    ensures SlowDuplicate(cfg, msg, ackWait, delays, calls, run)
  {
    hide Within, Fits, LeaseHeld, OnTheClock, Screen, JobValid, NoCrash, SettlesArrive;
    var interval := ProgressEvery(ackWait);
    var slow := SlowLeaseExpires(ackWait, interval, delays);
    var t := SlowExpiry(interval, delays);
    PromptCallIsWithin(interval, delays, t, t);
    calls := [slow, PromptCall(t, t)];
    run := FirstDelivery(cfg, msg, ackWait, delays, calls);
    if slow.returned <= t {
      run := FirstAnswer(cfg, msg, ackWait, delays, calls, run);
      run := SecondDelivery(cfg, msg, ackWait, delays, calls, run, t);
    } else {
      run := SecondDelivery(cfg, msg, ackWait, delays, calls, run, t);
      run := FirstAnswer(cfg, msg, ackWait, delays, calls, run);
    }
  }

  /**
   * With no crash and every settlement arriving, the provider can be made to accept a message twice exactly when the
   * delays of the worker add up to the ack wait.
   */
  lemma DelaysDuplicateExactly(cfg: Config, msg: Message, ackWait: nat, delays: Delays)
    requires ValidConfig(cfg) && Dispatchable(cfg, msg) && cfg.maxDeliver >= 2
    ensures (exists calls, run :: SlowDuplicate(cfg, msg, ackWait, delays, calls, run))
       <==> !Fits(ackWait, ProgressEvery(ackWait), delays)
  {
    hide Fits, TimedRun;
    forall calls, run | SlowDuplicate(cfg, msg, ackWait, delays, calls, run)
      ensures !Fits(ackWait, ProgressEvery(ackWait), delays)
    {
      var ds := TimedExec(cfg, msg, run).deliveries;
      assert TerminalCall(ds[0]);
      if Fits(ackWait, ProgressEvery(ackWait), delays) {
        TimedTerminalOutcomeIsLastCall(cfg, msg, ackWait, delays, calls, run, 0);
      }
    }
    if !Fits(ackWait, ProgressEvery(ackWait), delays) {
      var calls, run := SlowWorkerDuplicates(cfg, msg, ackWait, delays);
    }
  }
}
