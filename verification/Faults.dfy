/** Each assumption behind "a terminal outcome is the last provider call" is needed, and so is a readable header. */
module Faults {
  import opened Common
  import opened Dispositions
  import opened Handler
  import opened Protocol
  import opened Stranding

  predicate Dispatchable(cfg: Config, msg: Message) {
    Screen(cfg, msg).None? && JobValid(msg)
  }

  const ACCEPTED := Answers(Answered(Accepted), Confirmed, Confirmed, true)

  /** The provider accepted the message in each of its first two deliveries. */
  predicate Duplicates(cfg: Config, msg: Message, run: seq<Label>) {
    var ds := Exec(cfg, msg, run).deliveries;
    |ds| >= 2 && Dispatched(Answered(Accepted)) in ds[0].log && Dispatched(Answered(Accepted)) in ds[1].log
  }

  lemma RunAppend(cfg: Config, msg: Message, run: seq<Label>, l: Label) returns (longer: seq<Label>)
    ensures longer == run + [l]
    ensures Exec(cfg, msg, longer) == Step(cfg, msg, Exec(cfg, msg, run), l)
    ensures !l.Crash? && NoCrash(run) ==> NoCrash(longer)
    ensures (l.Act? ==> l.answers.reached) && SettlesArrive(run) ==> SettlesArrive(longer)
    ensures (l.Expire? ==> AllDone(Exec(cfg, msg, run).deliveries)) && LeasesKept(cfg, msg, run)
      ==> LeasesKept(cfg, msg, longer)
  {
    longer := run + [l];
    ExecAppend(cfg, msg, run, l);
    assert longer[..|longer| - 1] == run;
  }

  lemma EmptyRun(cfg: Config, msg: Message)
    ensures Exec(cfg, msg, []) == Initial && Undisturbed(cfg, msg, [])
  {
  }

  /** A delivery and three handler steps: admitted, dispatched to an accepting provider, result still unpublished. */
  lemma AcceptedOnce(cfg: Config, msg: Message, run: seq<Label>, i: nat) returns (longer: seq<Label>)
    requires ValidConfig(cfg) && Dispatchable(cfg, msg)
    requires var w := Exec(cfg, msg, run);
      |w.deliveries| == i < cfg.maxDeliver && w.available && w.settled.None?
    ensures var w := Exec(cfg, msg, longer);
      && w == World(Exec(cfg, msg, run).deliveries
                      + [Delivery(i + 1, PublishingResult(Accepted), [Dispatched(Answered(Accepted))])], false, None)
    ensures NoCrash(run) ==> NoCrash(longer)
    ensures SettlesArrive(run) ==> SettlesArrive(longer)
    ensures LeasesKept(cfg, msg, run) ==> LeasesKept(cfg, msg, longer)
  {
    var ds := Exec(cfg, msg, run).deliveries;
    longer := RunAppend(cfg, msg, run, Deliver(true));
    longer := RunAppend(cfg, msg, longer, Act(i, ACCEPTED));
    assert Exec(cfg, msg, longer).deliveries == ds + [Delivery(i + 1, Dispatching, [])];
    longer := RunAppend(cfg, msg, longer, Act(i, ACCEPTED));
    assert [] + [Dispatched(Answered(Accepted))] == [Dispatched(Answered(Accepted))];
  }

  lemma AcceptedTwice(cfg: Config, msg: Message, run: seq<Label>) returns (longer: seq<Label>)
    requires ValidConfig(cfg) && Dispatchable(cfg, msg) && cfg.maxDeliver >= 2
    requires var w := Exec(cfg, msg, run);
      |w.deliveries| == 1 && w.settled.None? && Dispatched(Answered(Accepted)) in w.deliveries[0].log
    ensures Duplicates(cfg, msg, longer)
    ensures NoCrash(run) ==> NoCrash(longer)
    ensures SettlesArrive(run) ==> SettlesArrive(longer)
    ensures LeasesKept(cfg, msg, run) && AllDone(Exec(cfg, msg, run).deliveries) ==> LeasesKept(cfg, msg, longer)
  {
    longer := RunAppend(cfg, msg, run, Expire);
    longer := AcceptedOnce(cfg, msg, longer, 1);
  }

  /** One lost settlement, one crash, or one lease expiring too early is enough to send a message twice. */
  lemma EachFaultAloneDuplicates(cfg: Config, msg: Message)
    requires ValidConfig(cfg) && Dispatchable(cfg, msg) && cfg.maxDeliver >= 2
    ensures exists run :: Duplicates(cfg, msg, run) && NoCrash(run) && LeasesKept(cfg, msg, run)
    ensures exists run :: Duplicates(cfg, msg, run) && SettlesArrive(run) && LeasesKept(cfg, msg, run)
    ensures exists run :: Duplicates(cfg, msg, run) && NoCrash(run) && SettlesArrive(run)
  {
    EmptyRun(cfg, msg);
    hide Exec, LeasesKept, NoCrash, SettlesArrive, Screen, JobValid;
    var once := AcceptedOnce(cfg, msg, [], 0);

    var lost := RunAppend(cfg, msg, once, Act(0, ACCEPTED));
    lost := RunAppend(cfg, msg, lost, Act(0, ACCEPTED.(reached := false)));
    var twice := AcceptedTwice(cfg, msg, lost);

    var crash := RunAppend(cfg, msg, once, Crash(0));
    twice := AcceptedTwice(cfg, msg, crash);

    twice := AcceptedTwice(cfg, msg, once);
  }

  const THROTTLED := Answers(Answered(Throttled), Confirmed, Confirmed, true)

  /** A whole delivery that is throttled and, attempts being left by its own count, answered with a Nak. */
  lemma ThrottledDelivery(cfg: Config, msg: Message, run: seq<Label>, i: nat, readable: bool)
      returns (longer: seq<Label>)
    requires ValidConfig(cfg) && Dispatchable(cfg, msg) && Undisturbed(cfg, msg, run)
    requires i < cfg.maxDeliver && 2 <= cfg.maxDeliver && (readable ==> i + 1 < cfg.maxDeliver)
    requires var w := Exec(cfg, msg, run); |w.deliveries| == i && w.available && w.settled.None?
    ensures Undisturbed(cfg, msg, longer)
    ensures var w := Exec(cfg, msg, longer);
      && |w.deliveries| == i + 1 && w.available && w.settled.None?
      && w.deliveries[..i] == Exec(cfg, msg, run).deliveries
      && Done(w.deliveries[i]) && SendsNak(w.deliveries[i])
      && w.deliveries[i].attempt == if readable then i + 1 else 1
  {
    hide Exec, LeasesKept, NoCrash, SettlesArrive, Screen, JobValid;
    longer := RunAppend(cfg, msg, run, Deliver(readable));
    longer := RunAppend(cfg, msg, longer, Act(i, THROTTLED));
    longer := RunAppend(cfg, msg, longer, Act(i, THROTTLED));
    longer := RunAppend(cfg, msg, longer, Act(i, THROTTLED));
    longer := RunAppend(cfg, msg, longer, Act(i, THROTTLED));
    var d := Exec(cfg, msg, longer).deliveries[i];
    assert Last(d.log) == Settled(NakCommand(cfg.nakDelay), true) && Last(d.log) in d.log;
  }

  lemma SpentIsQuiescent(cfg: Config, msg: Message, w: World)
    requires AllDone(w.deliveries) && |w.deliveries| == cfg.maxDeliver && w.available
    ensures Quiescent(cfg, msg, w)
  {
    hide Screen, JobValid;
    assert forall i :: 0 <= i < |w.deliveries| ==> w.deliveries[i := w.deliveries[i]] == w.deliveries;
  }

  /** The last permitted delivery is answered with a Nak, its handler counting it as attempt `a`. */
  predicate FinalNak(cfg: Config, w: World, a: nat) {
    && 0 < cfg.maxDeliver == |w.deliveries|
    && w.deliveries[|w.deliveries| - 1].attempt == a
    && SendsNak(w.deliveries[|w.deliveries| - 1])
  }

  /**
   * With any number of deliveries from two on: all are throttled, the header of the last one alone is unreadable
   * and counts as attempt 1, and the Nak it gets leaves the message neither settled nor dead-lettered for good.
   */
  lemma UnreadableFinalHeaderStrands(cfg: Config, msg: Message) returns (run: seq<Label>)
    requires ValidConfig(cfg) && Dispatchable(cfg, msg) && cfg.maxDeliver >= 2
    ensures Undisturbed(cfg, msg, run)
    ensures Exec(cfg, msg, run).settled.None? && Quiescent(cfg, msg, Exec(cfg, msg, run))
    ensures FinalNak(cfg, Exec(cfg, msg, run), 1)
    ensures forall i :: 0 <= i < cfg.maxDeliver - 1 ==> Exec(cfg, msg, run).deliveries[i].attempt == i + 1
  {
    EmptyRun(cfg, msg);
    hide Exec, Undisturbed, SendsNak, Dispatchable;
    run := [];
    for k := 0 to cfg.maxDeliver
      invariant Undisturbed(cfg, msg, run)
      invariant var w := Exec(cfg, msg, run); |w.deliveries| == k && w.available && w.settled.None?
      invariant forall i :: 0 <= i < k ==>
        && Done(Exec(cfg, msg, run).deliveries[i]) && SendsNak(Exec(cfg, msg, run).deliveries[i])
        && Exec(cfg, msg, run).deliveries[i].attempt == if i + 1 < cfg.maxDeliver then i + 1 else 1
    {
      run := ThrottledDelivery(cfg, msg, run, k, k + 1 < cfg.maxDeliver);
    }
    SpentIsQuiescent(cfg, msg, Exec(cfg, msg, run));
  }

  /** Only a retryable provider outcome is ever answered with a Nak, so the job was dispatched. */
  lemma {:induction false} NakNeedsDispatch(cfg: Config, msg: Message, attempt: nat, phase: Phase, log: seq<Effect>)
    requires Legal(cfg, msg, attempt, phase, log)
    requires exists e :: e in log && e.Settled? && e.command.NakCommand?
    ensures Dispatchable(cfg, msg)
  {
    hide Screen, JobValid;
    if phase.Crashed? {
      NakNeedsDispatch(cfg, msg, attempt, phase.during, log);
    } else {
      LegalSettles(cfg, msg, attempt, phase, log);
    }
  }

  /**
   * Some run Naks the last permitted delivery, where the broker can no longer redeliver, exactly when the job is
   * dispatched, there are several deliveries, and the handler takes that one for the first.
   */
  lemma FinalNakExactly(cfg: Config, msg: Message, a: nat)
    requires ValidConfig(cfg)
    ensures (exists run :: FinalNak(cfg, Exec(cfg, msg, run), a))
       <==> Dispatchable(cfg, msg) && a == 1 && cfg.maxDeliver >= 2
  {
    forall run | FinalNak(cfg, Exec(cfg, msg, run), a)
      ensures Dispatchable(cfg, msg) && a == 1 && cfg.maxDeliver >= 2
    {
      var last := |Exec(cfg, msg, run).deliveries| - 1;
      var d := Exec(cfg, msg, run).deliveries[last];
      RunsAreSound(cfg, msg, run);
      NakNeedsDispatch(cfg, msg, d.attempt, d.phase, d.log);
      NakLeavesADelivery(cfg, msg, run, last);
    }
    if Dispatchable(cfg, msg) && cfg.maxDeliver >= 2 {
      var run := UnreadableFinalHeaderStrands(cfg, msg);
    }
  }
}
