/** How protocol runs end: a bound on their effective steps, and which messages they leave unsettled. */
module Stranding {
  import opened Common
  import opened Dispositions
  import opened Handler
  import opened Protocol

  // ---- every run is bounded

  function SumRank(ds: seq<Delivery>): nat {
    if ds == [] then 0 else SumRank(ds[..|ds| - 1]) + Rank(ds[|ds| - 1])
  }

  lemma SumRankAppend(ds: seq<Delivery>, d: Delivery)
    ensures SumRank(ds + [d]) == SumRank(ds) + Rank(d)
  {
    assert (ds + [d])[..|ds|] == ds;
  }

  lemma {:induction false} SumRankUpdate(ds: seq<Delivery>, i: nat, d: Delivery)
    requires i < |ds|
    ensures SumRank(ds[i := d]) == SumRank(ds) - Rank(ds[i]) + Rank(d)
  {
    var n := |ds| - 1;
    if i == n {
      assert ds[i := d][..n] == ds[..n];
    } else {
      SumRankUpdate(ds[..n], i, d);
      assert ds[i := d][..n] == ds[..n][i := d];
    }
  }

  /** Deliveries left first, then the phases of the handlers, then whether a lease must still expire. */
  function Measure(cfg: Config, w: World): nat
    requires |w.deliveries| <= cfg.maxDeliver
  {
    7 * (cfg.maxDeliver - |w.deliveries|) + SumRank(w.deliveries) + if w.available then 0 else 1
  }

  lemma StepDescends(cfg: Config, msg: Message, w: World, l: Label)
    requires ValidConfig(cfg) && Sound(cfg, msg, w)
    ensures |Step(cfg, msg, w, l).deliveries| <= cfg.maxDeliver
    ensures Step(cfg, msg, w, l) == w || Measure(cfg, Step(cfg, msg, w, l)) < Measure(cfg, w)
  {
    match l
    case Deliver(readable) =>
      var header := if readable then Some(|w.deliveries| + 1) else None;
      SumRankAppend(w.deliveries, Start(AttemptOf(header)));
    case Expire =>
    case Act(i, a) =>
      if i < |w.deliveries| {
        AdvanceDescends(cfg, msg, w.deliveries[i], a);
        SumRankUpdate(w.deliveries, i, Advance(cfg, msg, w.deliveries[i], a));
      }
    case Crash(i) =>
      if i < |w.deliveries| && !Done(w.deliveries[i]) {
        var d := w.deliveries[i];
        SumRankUpdate(w.deliveries, i, d.(phase := Crashed(d.phase)));
      }
  }

  function EffectiveSteps(cfg: Config, msg: Message, run: seq<Label>): nat {
    if run == [] then 0
    else
      var before := run[..|run| - 1];
      EffectiveSteps(cfg, msg, before) + if Exec(cfg, msg, run) == Exec(cfg, msg, before) then 0 else 1
  }

  /** Whatever the faults, at most seven effective steps per permitted delivery. */
  lemma {:induction false} RunsAreBounded(cfg: Config, msg: Message, run: seq<Label>)
    requires ValidConfig(cfg)
    ensures |Exec(cfg, msg, run).deliveries| <= cfg.maxDeliver
    ensures EffectiveSteps(cfg, msg, run) + Measure(cfg, Exec(cfg, msg, run)) <= 7 * cfg.maxDeliver
  {
    RunsAreSound(cfg, msg, run);
    if run != [] {
      var before := run[..|run| - 1];
      RunsAreBounded(cfg, msg, before);
      RunsAreSound(cfg, msg, before);
      StepDescends(cfg, msg, Exec(cfg, msg, before), run[|run| - 1]);
    }
  }

  // ---- Nak and the redelivery budget

  /** In every run a Nak is sent with deliveries left, unless the header of that delivery was unreadable. */
  lemma NakLeavesADelivery(cfg: Config, msg: Message, run: seq<Label>, i: nat)
    requires ValidConfig(cfg)
    requires i < |Exec(cfg, msg, run).deliveries| && SendsNak(Exec(cfg, msg, run).deliveries[i])
    ensures i + 1 < cfg.maxDeliver || (Exec(cfg, msg, run).deliveries[i].attempt == 1 && i > 0)
  {
    RunsAreSound(cfg, msg, run);
    AttemptsAreCountedOrOne(cfg, msg, run);
    var d := Exec(cfg, msg, run).deliveries[i];
    LegalSettles(cfg, msg, d.attempt, d.phase, d.log);
  }

  lemma {:induction false} AttemptsAreCountedOrOne(cfg: Config, msg: Message, run: seq<Label>)
    requires ValidConfig(cfg)
    ensures forall i :: 0 <= i < |Exec(cfg, msg, run).deliveries| ==>
      Exec(cfg, msg, run).deliveries[i].attempt in {1, i + 1}
  {
    if run != [] {
      AttemptsAreCountedOrOne(cfg, msg, run[..|run| - 1]);
    }
  }

  // ---- stranded messages

  ghost predicate Quiescent(cfg: Config, msg: Message, w: World) {
    forall l :: Step(cfg, msg, w, l) == w
  }

  predicate AllSettledOnArrival(w: World) {
    forall i :: 0 <= i < |w.deliveries| ==> SettledOnArrival(w, w.deliveries[i])
  }

  lemma StepKeepsArrivals(cfg: Config, msg: Message, w: World, l: Label)
    requires AllSettledOnArrival(w) && !l.Crash? && (l.Act? ==> l.answers.reached)
    ensures AllSettledOnArrival(Step(cfg, msg, w, l))
  {
    hide Screen, JobValid;
  }

  lemma {:induction false} SettlementsTakeEffect(cfg: Config, msg: Message, run: seq<Label>)
    requires NoCrash(run) && SettlesArrive(run)
    ensures AllSettledOnArrival(Exec(cfg, msg, run))
  {
    hide Step, SettledOnArrival;
    if run != [] {
      var before := run[..|run| - 1];
      assert run[|run| - 1] in run && forall l :: l in before ==> l in run;
      SettlementsTakeEffect(cfg, msg, before);
      StepKeepsArrivals(cfg, msg, Exec(cfg, msg, before), run[|run| - 1]);
    }
  }

  lemma QuiescentIsDone(cfg: Config, msg: Message, w: World)
    requires ValidConfig(cfg) && Sound(cfg, msg, w) && Quiescent(cfg, msg, w)
    ensures AllDone(w.deliveries)
    ensures w.settled.None? ==> |w.deliveries| == cfg.maxDeliver
  {
    var a := Answers(InternalError, Confirmed, Confirmed, true);
    forall i | 0 <= i < |w.deliveries|
      ensures Done(w.deliveries[i])
    {
      assert Step(cfg, msg, w, Crash(i)) == w;
      assert Step(cfg, msg, w, Crash(i)).deliveries[i] == w.deliveries[i];
    }
    assert Step(cfg, msg, w, Expire) == w;
    assert Step(cfg, msg, w, Deliver(true)) == w;
  }

  /**
   * The handler returned early because a dead letter could not be published: of a poison payload, or, with no
   * attempt left, of a retryable outcome whose result event was acknowledged.
   */
  predicate GaveUp(cfg: Config, msg: Message, d: Delivery) {
    && d.phase.Abandoned? && d.log != [] && Last(d.log).DeadPublished? && Last(d.log).dead.Failed?
    && match Last(d.log).carried
       case None => |d.log| == 1 && Screen(cfg, msg) == Some(Last(d.log).reason)
       case Some(outcome) =>
         && Retryable(outcome) && d.attempt >= cfg.maxDeliver
         && |d.log| >= 2 && d.log[|d.log| - 2] == ResultPublished(outcome, Confirmed)
  }

  /** The handler took its delivery for the first attempt of several and sent a Nak for a retryable outcome. */
  predicate NakkedAsFirst(cfg: Config, d: Delivery) {
    && d.phase.Finished? && d.attempt == 1 < cfg.maxDeliver
    && d.log != [] && Last(d.log).Settled? && Last(d.log).command.NakCommand?
  }

  lemma AbandonedGaveUp(cfg: Config, msg: Message, d: Delivery)
    requires LegalDelivery(cfg, msg, d) && d.phase.Abandoned?
    ensures GaveUp(cfg, msg, d) && !TerminalCall(d) && !SendsNak(d)
  {
    hide Screen;
    assert Last(ButLast(d.log) + [Last(d.log)]) == Last(d.log);
    LegalSettles(cfg, msg, d.attempt, d.phase, d.log);
    if TerminalCall(d) {
      NakNeedsRetryable(cfg, msg, d);
    }
  }

  /** A handler that ended while the message stayed unsettled has sent a Nak, with attempts left, or given up. */
  lemma EndedWithoutSettling(cfg: Config, msg: Message, w: World, d: Delivery)
    requires LegalDelivery(cfg, msg, d) && Done(d) && SettledOnArrival(w, d) && w.settled.None?
    ensures !TerminalCall(d)
    ensures GaveUp(cfg, msg, d)
      || (d.phase.Finished? && SendsNak(d) && Last(d.log).Settled? && Last(d.log).command.NakCommand?
          && d.attempt < cfg.maxDeliver)
  {
    hide Screen, BurialDue, SettlementDue, GaveUp;
    EndedUnsettled(cfg, msg, w, d);
    LegalSettles(cfg, msg, d.attempt, d.phase, d.log);
    if d.phase.Abandoned? {
      AbandonedGaveUp(cfg, msg, d);
    } else {
      assert Last(d.log) in d.log;
    }
  }

  /**
   * When no handler crashes and settlements arrive, whatever else is lost, unreadable or expired, a message that
   * is left unsettled for good has used every delivery; and the last one gave up on a dead letter or, its delivery
   * counter unreadable, sent a Nak that nothing can follow. It never saw a terminal outcome.
   */
  lemma StrandedLastDelivery(cfg: Config, msg: Message, run: seq<Label>)
    requires ValidConfig(cfg) && NoCrash(run) && SettlesArrive(run)
    requires Quiescent(cfg, msg, Exec(cfg, msg, run)) && Exec(cfg, msg, run).settled.None?
    ensures var ds := Exec(cfg, msg, run).deliveries;
      && |ds| == cfg.maxDeliver
      && (GaveUp(cfg, msg, ds[|ds| - 1]) || NakkedAsFirst(cfg, ds[|ds| - 1]))
      && !TerminalCall(ds[|ds| - 1])
  {
    hide GaveUp;
    RunsAreSound(cfg, msg, run);
    SettlementsTakeEffect(cfg, msg, run);
    AttemptsAreCountedOrOne(cfg, msg, run);
    var w := Exec(cfg, msg, run);
    QuiescentIsDone(cfg, msg, w);
    EndedWithoutSettling(cfg, msg, w, w.deliveries[|w.deliveries| - 1]);
  }

  /** So when the counter of the last delivery is read correctly, only a failed dead letter strands a message. */
  lemma StrandedOnlyByBurial(cfg: Config, msg: Message, run: seq<Label>)
    requires ValidConfig(cfg) && NoCrash(run) && SettlesArrive(run)
    requires Quiescent(cfg, msg, Exec(cfg, msg, run)) && Exec(cfg, msg, run).settled.None?
    requires var ds := Exec(cfg, msg, run).deliveries; ds != [] ==> ds[|ds| - 1].attempt == |ds|
    ensures var ds := Exec(cfg, msg, run).deliveries;
      |ds| == cfg.maxDeliver && GaveUp(cfg, msg, ds[|ds| - 1])
  {
    hide GaveUp;
    StrandedLastDelivery(cfg, msg, run);
  }

  predicate Unsettling(d: Delivery) {
    d.phase.Abandoned? || (d.phase.Finished? && SendsNak(d))
  }

  /**
   * A finished run leaves the message unsettled exactly when every delivery gave up or sent a Nak; with leases
   * kept as well, exactly when the last permitted one did.
   */
  lemma StrandedExactly(cfg: Config, msg: Message, run: seq<Label>)
    requires ValidConfig(cfg) && NoCrash(run) && SettlesArrive(run)
    requires Quiescent(cfg, msg, Exec(cfg, msg, run))
    ensures var ds := Exec(cfg, msg, run).deliveries;
      Exec(cfg, msg, run).settled.None? <==> forall i :: 0 <= i < |ds| ==> Unsettling(ds[i])
    ensures LeasesKept(cfg, msg, run) ==>
      var ds := Exec(cfg, msg, run).deliveries;
      Exec(cfg, msg, run).settled.None? <==> |ds| == cfg.maxDeliver && Unsettling(ds[|ds| - 1])
  {
    RunsAreSound(cfg, msg, run);
    SettlementsTakeEffect(cfg, msg, run);
    var w := Exec(cfg, msg, run);
    QuiescentIsDone(cfg, msg, w);
    if w.settled.Some? {
      SettlerIsNotUnsettling(cfg, msg, w);
    } else {
      forall i | 0 <= i < |w.deliveries|
        ensures Unsettling(w.deliveries[i])
      {
        EndedWithoutSettling(cfg, msg, w, w.deliveries[i]);
      }
    }
    if LeasesKept(cfg, msg, run) {
      UndisturbedRunsAreOrderly(cfg, msg, run);
    }
  }

  lemma SettlerIsNotUnsettling(cfg: Config, msg: Message, w: World)
    requires Sound(cfg, msg, w) && w.settled.Some?
    ensures !Unsettling(w.deliveries[w.settled.value.from])
  {
    var d := w.deliveries[w.settled.value.from];
    LegalSettles(cfg, msg, d.attempt, d.phase, d.log);
  }
}
