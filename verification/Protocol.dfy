/**
 * The delivery protocol of one message: a broker that redelivers on Nak and on lease expiry, up to
 * max_deliver times, and any number of overlapping handlers. A run is any sequence of labels; a label
 * that is not enabled leaves the world as it is, so every sequence is a run.
 */
module Protocol {
  import opened Common
  import opened Dispositions
  import opened Handler

  datatype Settlement = Settlement(command: Command, from: nat)

  /** Delivery k of the message is `deliveries[k - 1]`; `available` says that the broker may deliver again. */
  datatype World = World(deliveries: seq<Delivery>, available: bool, settled: Option<Settlement>)

  datatype Label =
    | Deliver(readable: bool)          // the header of this delivery can or cannot be parsed
    | Expire                           // the ack lease runs out
    | Act(i: nat, answers: Answers)    // the handler of delivery i + 1 takes its next step
    | Crash(i: nat)

  predicate ValidConfig(cfg: Config) {
    0 < cfg.maxDeliver <= I64_MAX
  }

  const Initial := World([], true, None)

  function Receive(w: World, command: Command, from: nat): World {
    if w.settled.Some? then w
    else if command.NakCommand? then w.(available := true)
    else w.(settled := Some(Settlement(command, from)))
  }

  function Step(cfg: Config, msg: Message, w: World, l: Label): World {
    match l
    case Deliver(readable) =>
      if w.settled.None? && w.available && |w.deliveries| < cfg.maxDeliver then
        var header := if readable then Some(|w.deliveries| + 1) else None;
        w.(deliveries := w.deliveries + [Start(AttemptOf(header))], available := false)
      else w
    case Expire =>
      if w.settled.None? then w.(available := true) else w
    case Act(i, a) =>
      if i < |w.deliveries| then
        var d := w.deliveries[i];
        var w' := w.(deliveries := w.deliveries[i := Advance(cfg, msg, d, a)]);
        if d.phase.Settling? && a.reached then Receive(w', d.phase.command, i) else w'
      else w
    case Crash(i) =>
      if i < |w.deliveries| && !Done(w.deliveries[i]) then
        var d := w.deliveries[i];
        w.(deliveries := w.deliveries[i := d.(phase := Crashed(d.phase))])
      else w
  }

  function Exec(cfg: Config, msg: Message, run: seq<Label>): World {
    if run == [] then Initial
    else Step(cfg, msg, Exec(cfg, msg, run[..|run| - 1]), run[|run| - 1])
  }

  // ---- what a delivery has done, read from its log

  predicate Swallows(reason: Reason) {
    reason.ResultPublishFailedAfterTerminalOutcome?
  }

  function ButLast(log: seq<Effect>): seq<Effect>
    requires log != []
  {
    log[..|log| - 1]
  }

  function Last(log: seq<Effect>): Effect
    requires log != []
  {
    log[|log| - 1]
  }

  predicate DispatchPart(msg: Message, log: seq<Effect>, outcome: OutcomeClass) {
    if JobValid(msg) then |log| == 1 && log[0].Dispatched? && ClassOf(log[0].reply) == outcome
    else log == [] && outcome == InvalidPayload
  }

  predicate ResultPart(cfg: Config, msg: Message, log: seq<Effect>) {
    && Screen(cfg, msg).None?
    && log != []
    && Last(log).ResultPublished?
    && DispatchPart(msg, ButLast(log), Last(log).outcome)
  }

  predicate BurialDue(cfg: Config, msg: Message, attempt: nat, log: seq<Effect>,
      reason: Reason, carried: Option<OutcomeClass>) {
    match carried
    case None => Screen(cfg, msg) == Some(reason) && log == []
    case Some(outcome) =>
      && ResultPart(cfg, msg, log)
      && Last(log).outcome == outcome
      && if Last(log).result.Confirmed? then
           Retryable(outcome) && attempt >= cfg.maxDeliver && reason.RetryBudgetExhausted?
         else
           (!Retryable(outcome) || attempt >= cfg.maxDeliver) && Swallows(reason)
  }

  predicate SettlementDue(cfg: Config, msg: Message, attempt: nat, log: seq<Effect>, command: Command) {
    log != [] &&
    match command
    case AckCommand =>
      ResultPart(cfg, msg, log) && Last(log).result.Confirmed? && !Retryable(Last(log).outcome)
    case NakCommand(delay) =>
      ResultPart(cfg, msg, log) && Retryable(Last(log).outcome) && attempt < cfg.maxDeliver && delay == cfg.nakDelay
    case TermCommand =>
      && Last(log).DeadPublished?
      && BurialDue(cfg, msg, attempt, ButLast(log), Last(log).reason, Last(log).carried)
      && (Last(log).dead.Confirmed? || Swallows(Last(log).reason))
  }

  /** The histories a delivery can have in each phase; a crash freezes one of them. */
  predicate Legal(cfg: Config, msg: Message, attempt: nat, phase: Phase, log: seq<Effect>) {
    match phase
    case Queued => log == []
    case Dispatching => Screen(cfg, msg).None? && log == []
    case PublishingResult(outcome) => Screen(cfg, msg).None? && DispatchPart(msg, log, outcome)
    case Burying(reason, carried, swallow) =>
      BurialDue(cfg, msg, attempt, log, reason, carried) && (swallow <==> Swallows(reason))
    case Settling(command) => SettlementDue(cfg, msg, attempt, log, command)
    case Finished =>
      log != [] && Last(log).Settled? && SettlementDue(cfg, msg, attempt, ButLast(log), Last(log).command)
    case Abandoned =>
      && log != []
      && Last(log).DeadPublished?
      && Last(log).dead.Failed?
      && !Swallows(Last(log).reason)
      && BurialDue(cfg, msg, attempt, ButLast(log), Last(log).reason, Last(log).carried)
    case Crashed(during) => Legal(cfg, msg, attempt, during, log)
  }

  predicate LegalDelivery(cfg: Config, msg: Message, d: Delivery) {
    Legal(cfg, msg, d.attempt, d.phase, d.log)
  }

  lemma ScreenReasons(cfg: Config, msg: Message)
    ensures Screen(cfg, msg).Some? ==> !Swallows(Screen(cfg, msg).value)
  {
  }

  lemma ResultKeepsLegal(cfg: Config, msg: Message, d: Delivery, a: Answers)
    requires ValidConfig(cfg) && LegalDelivery(cfg, msg, d) && d.phase.PublishingResult?
    ensures LegalDelivery(cfg, msg, Advance(cfg, msg, d, a))
  {
    hide Screen, JobValid, DispatchPart;
    var log := d.log + [ResultPublished(d.phase.outcome, a.result)];
    assert ButLast(log) == d.log;
    assert ResultPart(cfg, msg, log);
  }

  lemma BurialKeepsLegal(cfg: Config, msg: Message, d: Delivery, a: Answers)
    requires LegalDelivery(cfg, msg, d) && d.phase.Burying?
    ensures LegalDelivery(cfg, msg, Advance(cfg, msg, d, a))
  {
    hide BurialDue;
    assert ButLast(d.log + [DeadPublished(d.phase.reason, d.phase.carried, a.dead)]) == d.log;
  }

  lemma SettlementKeepsLegal(cfg: Config, msg: Message, d: Delivery, a: Answers)
    requires LegalDelivery(cfg, msg, d) && d.phase.Settling?
    ensures LegalDelivery(cfg, msg, Advance(cfg, msg, d, a))
  {
    hide SettlementDue;
    assert ButLast(d.log + [Settled(d.phase.command, a.reached)]) == d.log;
  }

  lemma StartKeepsLegal(cfg: Config, msg: Message, d: Delivery, a: Answers)
    requires LegalDelivery(cfg, msg, d) && (d.phase.Queued? || d.phase.Dispatching?)
    ensures LegalDelivery(cfg, msg, Advance(cfg, msg, d, a))
  {
    hide Screen;
    ScreenReasons(cfg, msg);
  }

  lemma AdvanceKeepsLegal(cfg: Config, msg: Message, d: Delivery, a: Answers)
    requires ValidConfig(cfg) && LegalDelivery(cfg, msg, d)
    ensures LegalDelivery(cfg, msg, Advance(cfg, msg, d, a))
  {
    hide Legal;
    match d.phase
    case PublishingResult(_) => ResultKeepsLegal(cfg, msg, d, a);
    case Burying(_, _, _) => BurialKeepsLegal(cfg, msg, d, a);
    case Settling(_) => SettlementKeepsLegal(cfg, msg, d, a);
    case _ =>
      if d.phase.Queued? || d.phase.Dispatching? {
        StartKeepsLegal(cfg, msg, d, a);
      }
  }

  // ---- invariants of every run

  predicate Sound(cfg: Config, msg: Message, w: World) {
    && |w.deliveries| <= cfg.maxDeliver
    && (forall i :: 0 <= i < |w.deliveries| ==> LegalDelivery(cfg, msg, w.deliveries[i]))
    && (w.settled.Some? ==>
          var s := w.settled.value;
          && s.from < |w.deliveries|
          && !s.command.NakCommand?
          && w.deliveries[s.from].phase.Finished?
          && Last(w.deliveries[s.from].log) == Settled(s.command, true))
  }

  lemma StepKeepsSound(cfg: Config, msg: Message, w: World, l: Label)
    requires ValidConfig(cfg) && Sound(cfg, msg, w)
    ensures Sound(cfg, msg, Step(cfg, msg, w, l))
  {
    if l.Act? && l.i < |w.deliveries| {
      AdvanceKeepsLegal(cfg, msg, w.deliveries[l.i], l.answers);
    }
  }

  lemma {:induction false} RunsAreSound(cfg: Config, msg: Message, run: seq<Label>)
    requires ValidConfig(cfg)
    ensures Sound(cfg, msg, Exec(cfg, msg, run))
  {
    if run != [] {
      RunsAreSound(cfg, msg, run[..|run| - 1]);
      StepKeepsSound(cfg, msg, Exec(cfg, msg, run[..|run| - 1]), run[|run| - 1]);
    }
  }

  lemma ExecAppend(cfg: Config, msg: Message, run: seq<Label>, l: Label)
    ensures Exec(cfg, msg, run + [l]) == Step(cfg, msg, Exec(cfg, msg, run), l)
  {
    assert (run + [l])[..|run|] == run;
  }

  /** The first Ack or Term stands: whatever happens later, it is not replaced and the message is not delivered again. */
  lemma {:induction false} SettledIsFinal(cfg: Config, msg: Message, run: seq<Label>, more: seq<Label>)
    requires Exec(cfg, msg, run).settled.Some?
    ensures Exec(cfg, msg, run + more).settled == Exec(cfg, msg, run).settled
    ensures |Exec(cfg, msg, run + more).deliveries| == |Exec(cfg, msg, run).deliveries|
  {
    hide Advance;
    if more == [] {
      assert run + more == run;
    } else {
      SettledIsFinal(cfg, msg, run, more[..|more| - 1]);
      assert (run + more)[..|run + more| - 1] == run + more[..|more| - 1];
    }
  }

  /** A handler left alone performs in the protocol what HandleMessage performs: its completed delivery. */
  lemma {:induction false} HandlerCompletes(cfg: Config, msg: Message, run: seq<Label>, i: nat, a: Answers)
      returns (longer: seq<Label>)
    requires i < |Exec(cfg, msg, run).deliveries|
    ensures run <= longer
    ensures |Exec(cfg, msg, longer).deliveries| == |Exec(cfg, msg, run).deliveries|
    ensures Exec(cfg, msg, longer).deliveries[i] == Complete(cfg, msg, Exec(cfg, msg, run).deliveries[i], a)
    ensures forall j :: 0 <= j < |Exec(cfg, msg, run).deliveries| && j != i ==>
      Exec(cfg, msg, longer).deliveries[j] == Exec(cfg, msg, run).deliveries[j]
    decreases Rank(Exec(cfg, msg, run).deliveries[i])
  {
    hide Advance;
    longer := run;
    var d := Exec(cfg, msg, run).deliveries[i];
    if !Done(d) {
      AdvanceDescends(cfg, msg, d, a);
      ExecAppend(cfg, msg, run, Act(i, a));
      longer := HandlerCompletes(cfg, msg, run + [Act(i, a)], i, a);
    }
  }

  // ---- settlement evidence

  predicate AckEvidence(log: seq<Effect>) {
    exists e :: e in log && e.ResultPublished? && e.result.Confirmed? && !Retryable(e.outcome)
  }

  /** An acknowledged dead letter, or an outcome whose result event and dead letter both failed to publish. */
  predicate TermEvidence(log: seq<Effect>) {
    || (exists e :: e in log && e.DeadPublished? && e.dead.Confirmed?)
    || (exists e, f ::
          && e in log && f in log
          && e.ResultPublished? && e.result.Failed?
          && f.DeadPublished? && f.dead.Failed? && f.carried == Some(e.outcome))
  }

  lemma SettlementDueEvidence(cfg: Config, msg: Message, attempt: nat, log: seq<Effect>, command: Command)
    requires SettlementDue(cfg, msg, attempt, log, command)
    ensures command.AckCommand? ==> AckEvidence(log)
    ensures command.TermCommand? ==> TermEvidence(log)
  {
    assert Last(log) in log;
    if command.TermCommand? && Last(log).dead.Failed? {
      ScreenReasons(cfg, msg);
      assert Last(ButLast(log)) in log;
    }
  }

  /** In every run, whatever crashes, is lost or expires, a settled message carries its evidence. */
  lemma SettlementEvidence(cfg: Config, msg: Message, run: seq<Label>)
    requires ValidConfig(cfg)
    ensures var w := Exec(cfg, msg, run);
      w.settled.Some? ==>
        var s := w.settled.value;
        && s.from < |w.deliveries|
        && match s.command
           case AckCommand => AckEvidence(w.deliveries[s.from].log)
           case NakCommand(_) => false
           case TermCommand => TermEvidence(w.deliveries[s.from].log)
  {
    RunsAreSound(cfg, msg, run);
    var w := Exec(cfg, msg, run);
    if w.settled.Some? {
      var s := w.settled.value;
      var d := w.deliveries[s.from];
      SettlementDueEvidence(cfg, msg, d.attempt, ButLast(d.log), s.command);
      assert forall e :: e in ButLast(d.log) ==> e in d.log;
    }
  }

  // ---- provider calls

  function Calls(log: seq<Effect>): nat {
    if log == [] then 0 else (if log[0].Dispatched? then 1 else 0) + Calls(log[1..])
  }

  function TotalCalls(ds: seq<Delivery>): nat {
    if ds == [] then 0 else Calls(ds[0].log) + TotalCalls(ds[1..])
  }

  lemma {:induction false} CallsOnlyFirst(log: seq<Effect>)
    requires forall j :: 0 < j < |log| ==> !log[j].Dispatched?
    ensures Calls(log) == if log != [] && log[0].Dispatched? then 1 else 0
  {
    if |log| > 1 {
      CallsOnlyFirst(log[1..]);
    }
  }

  /** A legal delivery calls the provider at most once, first of all, and only for a screened valid job. */
  lemma {:induction false} LegalCalls(cfg: Config, msg: Message, attempt: nat, phase: Phase, log: seq<Effect>)
    requires Legal(cfg, msg, attempt, phase, log)
    ensures forall j :: 0 <= j < |log| && log[j].Dispatched? ==> j == 0 && Screen(cfg, msg).None? && JobValid(msg)
    ensures Calls(log) <= 1
    ensures Screen(cfg, msg).Some? || !JobValid(msg) ==> Calls(log) == 0
  {
    if phase.Crashed? {
      LegalCalls(cfg, msg, attempt, phase.during, log);
    }
    CallsOnlyFirst(log);
  }

  lemma {:induction false} TotalCallsBound(cfg: Config, msg: Message, ds: seq<Delivery>)
    requires forall i :: 0 <= i < |ds| ==> LegalDelivery(cfg, msg, ds[i])
    ensures TotalCalls(ds) <= |ds|
    ensures Screen(cfg, msg).Some? || !JobValid(msg) ==> TotalCalls(ds) == 0
  {
    if ds != [] {
      LegalCalls(cfg, msg, ds[0].attempt, ds[0].phase, ds[0].log);
      TotalCallsBound(cfg, msg, ds[1..]);
    }
  }

  /** At most max_deliver provider calls in every run, and none for a poison payload or an invalid job. */
  lemma CallsAreBounded(cfg: Config, msg: Message, run: seq<Label>)
    requires ValidConfig(cfg)
    ensures TotalCalls(Exec(cfg, msg, run).deliveries) <= cfg.maxDeliver
    ensures Screen(cfg, msg).Some? || !JobValid(msg) ==> TotalCalls(Exec(cfg, msg, run).deliveries) == 0
  {
    RunsAreSound(cfg, msg, run);
    TotalCallsBound(cfg, msg, Exec(cfg, msg, run).deliveries);
  }

  // ---- terminal outcomes

  /** The delivery has called the provider and got a non-retryable outcome. */
  predicate TerminalCall(d: Delivery) {
    exists e :: e in d.log && e.Dispatched? && !Retryable(ClassOf(e.reply))
  }

  predicate SendsNak(d: Delivery) {
    exists e :: e in d.log && e.Settled? && e.command.NakCommand?
  }

  lemma NakNeedsRetryable(cfg: Config, msg: Message, d: Delivery)
    requires LegalDelivery(cfg, msg, d) && TerminalCall(d)
    ensures !SendsNak(d) && !d.phase.Abandoned?
    ensures d.phase.Settling? ==> !d.phase.command.NakCommand?
    ensures d.phase.Finished? ==> !Last(d.log).command.NakCommand?
  {
    LegalCalls(cfg, msg, d.attempt, d.phase, d.log);
    LegalSettles(cfg, msg, d.attempt, d.phase, d.log);
  }

  /** A legal log settles only at its end, and a Nak there means a retryable call with attempts left. */
  lemma {:induction false} LegalSettles(cfg: Config, msg: Message, attempt: nat, phase: Phase, log: seq<Effect>)
    requires Legal(cfg, msg, attempt, phase, log)
    ensures forall j :: 0 <= j < |log| && log[j].Settled? ==> j == |log| - 1
    ensures forall j :: 0 <= j < |log| && log[j].Settled? && log[j].command.NakCommand? ==>
      attempt < cfg.maxDeliver && (log[0].Dispatched? ==> Retryable(ClassOf(log[0].reply)))
  {
    if phase.Crashed? {
      LegalSettles(cfg, msg, attempt, phase.during, log);
    }
  }

  /** In every run, no handler that saw a terminal provider outcome ever sends a Nak. */
  lemma TerminalOutcomeNeverNaks(cfg: Config, msg: Message, run: seq<Label>)
    requires ValidConfig(cfg)
    ensures forall d :: d in Exec(cfg, msg, run).deliveries && TerminalCall(d) ==> !SendsNak(d)
  {
    RunsAreSound(cfg, msg, run);
    var ds := Exec(cfg, msg, run).deliveries;
    forall d | d in ds && TerminalCall(d)
      ensures !SendsNak(d)
    {
      NakNeedsRetryable(cfg, msg, d);
    }
  }

  // ---- what becomes of a provider's reply

  /** A result event reports the reply that came before it, or a payload that was never dispatched. */
  lemma {:induction false} LegalReports(cfg: Config, msg: Message, attempt: nat, phase: Phase, log: seq<Effect>)
    requires Legal(cfg, msg, attempt, phase, log)
    ensures forall e :: e in log && e.ResultPublished? ==>
      if log[0].Dispatched? then Carries(log[0].reply, e.outcome) else e.outcome == InvalidPayload
    ensures forall e :: e in log && e.DeadPublished? && e.carried.Some? ==>
      if log[0].Dispatched? then Carries(log[0].reply, e.carried.value) else e.carried.value == InvalidPayload
  {
    hide Screen, JobValid;
    if phase.Crashed? {
      LegalReports(cfg, msg, attempt, phase.during, log);
    }
  }

  /** In every run the events of a dispatched delivery report the class of the reply it got, and no other. */
  lemma EventsReportTheReply(cfg: Config, msg: Message, run: seq<Label>, d: Delivery, reply: Reply)
    requires ValidConfig(cfg) && d in Exec(cfg, msg, run).deliveries
    requires d.log != [] && d.log[0] == Dispatched(reply)
    ensures forall e :: e in d.log && e.ResultPublished? ==>
      match reply
      case Answered(answered) => e.outcome == answered
      case NotConfigured => e.outcome == PermanentProviderFailure
      case DeliveryError(failed) => e.outcome == failed
      case InternalError => e.outcome == InternalFailure
    ensures forall e :: e in d.log && e.DeadPublished? ==> e.carried.Some? && Carries(reply, e.carried.value)
  {
    RunsAreSound(cfg, msg, run);
    LegalReports(cfg, msg, d.attempt, d.phase, d.log);
    LegalBurials(cfg, msg, d.attempt, d.phase, d.log);
  }

  lemma {:induction false} LegalBurials(cfg: Config, msg: Message, attempt: nat, phase: Phase, log: seq<Effect>)
    requires Legal(cfg, msg, attempt, phase, log)
    ensures forall e :: e in log && e.DeadPublished? && e.carried.None? ==> !log[0].Dispatched?
  {
    hide Screen, JobValid;
    if phase.Crashed? {
      LegalBurials(cfg, msg, attempt, phase.during, log);
    }
  }

  /**
   * In every run the settlement of a dispatched delivery follows from its reply: a throttled, transient or internal
   * failure with attempts left is Nak-ed, whatever became of the result event; any other reply with a confirmed
   * result event is acked when it is terminal; everything else is terminated.
   */
  lemma SettlementFollowsReply(cfg: Config, msg: Message, run: seq<Label>, d: Delivery, outcome: OutcomeClass)
    requires ValidConfig(cfg) && d in Exec(cfg, msg, run).deliveries && d.phase.Finished?
    requires d.log != [] && d.log[0].Dispatched? && Carries(d.log[0].reply, outcome)
    ensures |d.log| >= 3 && d.log[1].ResultPublished? && d.log[|d.log| - 1].Settled?
    ensures var retryable := outcome in {Throttled, TransientProviderFailure, InternalFailure};
      d.log[|d.log| - 1].command ==
        if retryable && d.attempt < cfg.maxDeliver then NakCommand(cfg.nakDelay)
        else if !retryable && d.log[1].result.Confirmed? then AckCommand
        else TermCommand
  {
    hide Screen, JobValid;
    RunsAreSound(cfg, msg, run);
    LegalReports(cfg, msg, d.attempt, d.phase, d.log);
  }

  // ---- runs in which settlements arrive and leases are kept

  predicate AllDone(ds: seq<Delivery>) {
    forall i :: 0 <= i < |ds| ==> Done(ds[i])
  }

  predicate Gentle(w: World, l: Label) {
    match l
    case Deliver(_) => true
    case Expire => AllDone(w.deliveries)
    case Act(_, a) => a.reached
    case Crash(_) => false
  }

  predicate NoCrash(run: seq<Label>) {
    forall l :: l in run ==> !l.Crash?
  }

  predicate SettlesArrive(run: seq<Label>) {
    forall l :: l in run && l.Act? ==> l.answers.reached
  }

  /** A lease never runs out under an active handler. */
  predicate LeasesKept(cfg: Config, msg: Message, run: seq<Label>) {
    run == [] ||
    (var before := run[..|run| - 1];
     && LeasesKept(cfg, msg, before)
     && (run[|run| - 1].Expire? ==> AllDone(Exec(cfg, msg, before).deliveries)))
  }

  predicate Undisturbed(cfg: Config, msg: Message, run: seq<Label>) {
    NoCrash(run) && SettlesArrive(run) && LeasesKept(cfg, msg, run)
  }

  /** What undisturbed runs keep: one active handler, no delivery after a terminal call or a settlement. */
  predicate Orderly(w: World) {
    && (forall i :: 0 <= i < |w.deliveries| - 1 ==> !TerminalCall(w.deliveries[i]))
    && (forall i :: 0 <= i < |w.deliveries| - 1 ==> Done(w.deliveries[i]))
    && (forall i :: 0 <= i < |w.deliveries| ==> SettledOnArrival(w, w.deliveries[i]))
    && (w.available || w.settled.Some? ==> AllDone(w.deliveries))
    && (w.settled.Some? ==> w.settled.value.from == |w.deliveries| - 1)
  }

  predicate SettledOnArrival(w: World, d: Delivery) {
    && !d.phase.Crashed?
    && (d.phase.Finished? && d.log != [] && Last(d.log).Settled? && !Last(d.log).command.NakCommand?
        ==> w.settled.Some?)
  }

  /** A handler that ended while the message stayed unsettled has seen no terminal outcome. */
  lemma EndedUnsettled(cfg: Config, msg: Message, w: World, d: Delivery)
    requires LegalDelivery(cfg, msg, d) && Done(d) && SettledOnArrival(w, d) && w.settled.None?
    ensures !TerminalCall(d)
  {
    hide Screen, BurialDue, SettlementDue;
    if TerminalCall(d) {
      NakNeedsRetryable(cfg, msg, d);
    }
  }

  lemma StepKeepsOrderly(cfg: Config, msg: Message, w: World, l: Label)
    requires ValidConfig(cfg) && Sound(cfg, msg, w) && Orderly(w) && Gentle(w, l)
    ensures Orderly(Step(cfg, msg, w, l))
  {
    hide Legal, Screen, JobValid;
    var n := |w.deliveries|;
    if l.Deliver? && w.settled.None? && w.available && n > 0 {
      EndedUnsettled(cfg, msg, w, w.deliveries[n - 1]);
    }
  }

  lemma {:induction false} UndisturbedRunsAreOrderly(cfg: Config, msg: Message, run: seq<Label>)
    requires ValidConfig(cfg) && Undisturbed(cfg, msg, run)
    ensures Orderly(Exec(cfg, msg, run))
  {
    if run != [] {
      var before := run[..|run| - 1];
      assert run[|run| - 1] in run && forall l :: l in before ==> l in run;
      UndisturbedRunsAreOrderly(cfg, msg, before);
      RunsAreSound(cfg, msg, before);
      StepKeepsOrderly(cfg, msg, Exec(cfg, msg, before), run[|run| - 1]);
    }
  }

  /** When settlements arrive and leases are kept, a terminal outcome is the last provider call: no delivery follows. */
  lemma TerminalOutcomeIsLastCall(cfg: Config, msg: Message, run: seq<Label>, i: nat)
    requires ValidConfig(cfg) && Undisturbed(cfg, msg, run)
    requires i < |Exec(cfg, msg, run).deliveries| && TerminalCall(Exec(cfg, msg, run).deliveries[i])
    ensures i == |Exec(cfg, msg, run).deliveries| - 1
    ensures Done(Exec(cfg, msg, run).deliveries[i]) ==> Exec(cfg, msg, run).settled.Some?
  {
    UndisturbedRunsAreOrderly(cfg, msg, run);
    RunsAreSound(cfg, msg, run);
    NakNeedsRetryable(cfg, msg, Exec(cfg, msg, run).deliveries[i]);
  }

  // ---- leases alone

  predicate OneAtATime(w: World) {
    && (forall i :: 0 <= i < |w.deliveries| - 1 ==> Done(w.deliveries[i]))
    && (w.available ==> AllDone(w.deliveries))
  }

  predicate AtMostOneActive(ds: seq<Delivery>) {
    forall i, j :: 0 <= i < j < |ds| ==> Done(ds[i]) || Done(ds[j])
  }

  lemma StepKeepsOneAtATime(cfg: Config, msg: Message, w: World, l: Label)
    requires OneAtATime(w) && (l.Expire? ==> AllDone(w.deliveries))
    ensures OneAtATime(Step(cfg, msg, w, l))
  {
    hide Screen, JobValid;
  }

  /** If leases are kept, then whatever crashes and whatever is lost, at most one handler works on the message. */
  lemma {:induction false} OneHandlerAtATime(cfg: Config, msg: Message, run: seq<Label>)
    requires LeasesKept(cfg, msg, run)
    ensures OneAtATime(Exec(cfg, msg, run))
    ensures AtMostOneActive(Exec(cfg, msg, run).deliveries)
  {
    hide Step;
    if run != [] {
      var before := run[..|run| - 1];
      OneHandlerAtATime(cfg, msg, before);
      StepKeepsOneAtATime(cfg, msg, Exec(cfg, msg, before), run[|run| - 1]);
    }
  }
}
