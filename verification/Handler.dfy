/** One delivery of one message: the payload screens, the effects of the handler, and its log. */
module Handler {
  import opened Common
  import opened Dispositions

  type Bytes = seq<bv8>

  datatype Envelope = Envelope(schema: string, auth: Option<Bytes>, jobValid: bool)

  /** A stored job message; `envelope` is None when the payload does not parse. */
  datatype Message = Message(payloadBytes: nat, envelope: Option<Envelope>)

  datatype Config = Config(
    lane: Lane, secret: Option<Bytes>, maxPayloadBytes: nat, maxDeliver: int, nakDelay: nat)

  datatype Reason =
    | PayloadTooLarge
    | InvalidEnvelopeJson
    | UnsupportedEnvelopeSchema
    | EnvelopeAuthenticationFailed
    | ResultPublishFailedAfterTerminalOutcome
    | RetryBudgetExhausted

  function EnvelopeSchema(lane: Lane): string {
    match lane
    case Push => "push.job.envelope.v1"
    case Contact => "contact.job.envelope.v1"
  }

  // ---- envelope authentication

  /** The byte fold of constant_time_eq. */
  function FoldDifference(left: Bytes, right: Bytes, difference: bv8): bv8
    requires |left| == |right|
  {
    if left == [] then difference
    else FoldDifference(left[1..], right[1..], difference | (left[0] ^ right[0]))
  }

  predicate ConstantTimeEq(left: Bytes, right: Bytes) {
    |left| == |right| && FoldDifference(left, right, 0) == 0
  }

  lemma {:induction false} FoldDifferenceZero(left: Bytes, right: Bytes, difference: bv8)
    requires |left| == |right|
    ensures FoldDifference(left, right, difference) == 0 <==> difference == 0 && left == right
  {
    if left != [] {
      FoldDifferenceZero(left[1..], right[1..], difference | (left[0] ^ right[0]));
      OrXorZero(difference, left[0], right[0]);
      assert left == [left[0]] + left[1..] && right == [right[0]] + right[1..];
    }
  }

  lemma OrXorZero(d: bv8, x: bv8, y: bv8)
    ensures d | (x ^ y) == 0 <==> d == 0 && x == y
  {
  }

  predicate Authenticate(secret: Option<Bytes>, supplied: Option<Bytes>) {
    match secret
    case None => true
    case Some(expected) => supplied.Some? && ConstantTimeEq(supplied.value, expected)
  }

  // ---- screening

  /** The reason for which a payload is buried without dispatch, or None when the job is to be processed. */
  function Screen(cfg: Config, msg: Message): Option<Reason> {
    if msg.payloadBytes > cfg.maxPayloadBytes then Some(PayloadTooLarge)
    else match msg.envelope
      case None => Some(InvalidEnvelopeJson)
      case Some(envelope) =>
        if envelope.schema != EnvelopeSchema(cfg.lane) then Some(UnsupportedEnvelopeSchema)
        else if !Authenticate(cfg.secret, envelope.auth) then Some(EnvelopeAuthenticationFailed)
        else None
  }

  /** A payload is processed exactly when it fits, parses, has the lane's schema and carries the configured secret. */
  lemma ScreenedExactly(cfg: Config, msg: Message)
    ensures Screen(cfg, msg).None? <==>
      && msg.payloadBytes <= cfg.maxPayloadBytes
      && msg.envelope.Some?
      && msg.envelope.value.schema == EnvelopeSchema(cfg.lane)
      && (cfg.secret.Some? ==> msg.envelope.value.auth == cfg.secret)
    ensures Screen(cfg, msg).None? ==>
      msg.envelope.value.schema == if cfg.lane.Push? then "push.job.envelope.v1" else "contact.job.envelope.v1"
    ensures Screen(cfg, msg) == Some(PayloadTooLarge) <==> msg.payloadBytes > cfg.maxPayloadBytes
    ensures Screen(cfg, msg) == Some(InvalidEnvelopeJson) <==>
      msg.payloadBytes <= cfg.maxPayloadBytes && msg.envelope.None?
    ensures Screen(cfg, msg) == Some(UnsupportedEnvelopeSchema) <==>
      && msg.payloadBytes <= cfg.maxPayloadBytes
      && msg.envelope.Some? && msg.envelope.value.schema != EnvelopeSchema(cfg.lane)
    ensures Screen(cfg, msg) == Some(EnvelopeAuthenticationFailed) <==>
      && msg.payloadBytes <= cfg.maxPayloadBytes
      && msg.envelope.Some? && msg.envelope.value.schema == EnvelopeSchema(cfg.lane)
      && cfg.secret.Some? && msg.envelope.value.auth != cfg.secret
  {
    if cfg.secret.Some? && msg.envelope.Some? && msg.envelope.value.auth.Some? {
      var left, right := msg.envelope.value.auth.value, cfg.secret.value;
      if |left| == |right| {
        FoldDifferenceZero(left, right, 0);
      }
    }
  }

  predicate JobValid(msg: Message) {
    msg.envelope.Some? && msg.envelope.value.jobValid
  }

  // ---- effects and their answers

  /** What the provider registry answers to a dispatched job. */
  datatype Reply =
    | Answered(outcome: OutcomeClass)
    | NotConfigured
    | DeliveryError(outcome: OutcomeClass)
    | InternalError

  function ClassOf(reply: Reply): OutcomeClass {
    match reply
    case Answered(outcome) => outcome
    case NotConfigured => PermanentProviderFailure
    case DeliveryError(outcome) => outcome
    case InternalError => InternalFailure
  }

  /** Both awaits of a publish succeeded, or one failed: then the event may or may not be stored. */
  datatype Publish = Confirmed | Failed(stored: bool)

  datatype Command = AckCommand | NakCommand(delay: nat) | TermCommand

  datatype Effect =
    | Dispatched(reply: Reply)
    | ResultPublished(outcome: OutcomeClass, result: Publish)
    | DeadPublished(reason: Reason, carried: Option<OutcomeClass>, dead: Publish)
    | Settled(command: Command, reached: bool)

  /** How the environment answers the effects of one delivery. */
  datatype Answers = Answers(reply: Reply, result: Publish, dead: Publish, reached: bool)

  // ---- the handler as a step machine

  datatype Phase =
    | Queued                                    // delivered, waiting for a semaphore permit
    | Dispatching
    | PublishingResult(outcome: OutcomeClass)
    | Burying(reason: Reason, carried: Option<OutcomeClass>, swallow: bool)
    | Settling(command: Command)
    | Finished                                  // a settlement was sent
    | Abandoned                                 // returned early because a dead-letter publish failed
    | Crashed(during: Phase)

  datatype Delivery = Delivery(attempt: nat, phase: Phase, log: seq<Effect>)

  /** The delivery counter as read from the message header, with its fallback. */
  function AttemptOf(delivered: Option<int>): nat {
    if delivered.Some? && delivered.value >= 0 then delivered.value else 1
  }

  function Start(attempt: nat): Delivery {
    Delivery(attempt, Queued, [])
  }

  predicate Done(d: Delivery) {
    d.phase.Finished? || d.phase.Abandoned? || d.phase.Crashed?
  }

  function AfterDisposition(cfg: Config, disposition: Disposition, onDeadLetter: Phase): Phase {
    match disposition
    case Ack => Settling(AckCommand)
    case Nak(delay) => Settling(NakCommand(delay))
    case DeadLetter => onDeadLetter
  }

  /** One step of handle_message; each step performs at most one effect. */
  function Advance(cfg: Config, msg: Message, d: Delivery, a: Answers): Delivery {
    match d.phase
    case Queued =>
      d.(phase := match Screen(cfg, msg)
                  case Some(reason) => Burying(reason, None, false)
                  case None => Dispatching)
    case Dispatching =>
      if JobValid(msg) then
        d.(phase := PublishingResult(ClassOf(a.reply)), log := d.log + [Dispatched(a.reply)])
      else
        d.(phase := PublishingResult(InvalidPayload))
    case PublishingResult(outcome) =>
      Delivery(d.attempt,
        if a.result.Confirmed? then
          AfterDisposition(cfg, ForOutcome(cfg.lane, outcome, d.attempt, cfg.maxDeliver, cfg.nakDelay),
            Burying(RetryBudgetExhausted, Some(outcome), false))
        else
          AfterDisposition(cfg, ForPublishFailure(cfg.lane, outcome, d.attempt, cfg.maxDeliver, cfg.nakDelay),
            Burying(ResultPublishFailedAfterTerminalOutcome, Some(outcome), true)),
        d.log + [ResultPublished(outcome, a.result)])
    case Burying(reason, outcome, swallow) =>
      Delivery(d.attempt,
        if a.dead.Confirmed? || swallow then Settling(TermCommand) else Abandoned,
        d.log + [DeadPublished(reason, outcome, a.dead)])
    case Settling(command) =>
      Delivery(d.attempt, Finished, d.log + [Settled(command, a.reached)])
    case _ => d
  }

  /** Number of effective steps a delivery can still take. */
  function Rank(d: Delivery): nat {
    match d.phase
    case Queued => 5
    case Dispatching => 4
    case PublishingResult(_) => 3
    case Burying(_, _, _) => 2
    case Settling(_) => 1
    case _ => 0
  }

  lemma AdvanceDescends(cfg: Config, msg: Message, d: Delivery, a: Answers)
    ensures if Done(d) then Advance(cfg, msg, d, a) == d else Rank(Advance(cfg, msg, d, a)) < Rank(d)
  {
  }

  /** The delivery run to its end without a crash. */
  function Complete(cfg: Config, msg: Message, d: Delivery, a: Answers): Delivery
    decreases Rank(d)
  {
    if Done(d) then d
    else
      AdvanceDescends(cfg, msg, d, a);
      Complete(cfg, msg, Advance(cfg, msg, d, a), a)
  }

  /** What is still to be logged once only the burial or the settlement is left. */
  lemma CompletionOfTail(cfg: Config, msg: Message, d: Delivery, a: Answers)
    ensures d.phase.Settling? ==>
      Complete(cfg, msg, d, a).log == d.log + [Settled(d.phase.command, a.reached)]
    ensures d.phase.Burying? ==>
      Complete(cfg, msg, d, a).log == d.log + [DeadPublished(d.phase.reason, d.phase.carried, a.dead)]
        + if a.dead.Confirmed? || d.phase.swallow then [Settled(TermCommand, a.reached)] else []
  {
    var next := Advance(cfg, msg, d, a);
    if d.phase.Settling? || d.phase.Burying? {
      assert Complete(cfg, msg, d, a) == Complete(cfg, msg, next, a);
      if next.phase.Settling? {
        assert Complete(cfg, msg, next, a) == Complete(cfg, msg, Advance(cfg, msg, next, a), a);
      }
    }
  }

  /** The delivery once its job has been processed: the outcome is known and its result is about to be published. */
  function Processed(msg: Message, attempt: nat, a: Answers): Delivery {
    if JobValid(msg) then Delivery(attempt, PublishingResult(ClassOf(a.reply)), [Dispatched(a.reply)])
    else Delivery(attempt, PublishingResult(InvalidPayload), [])
  }

  lemma CompletionOfStart(cfg: Config, msg: Message, attempt: nat, a: Answers)
    ensures Screen(cfg, msg).Some? ==>
      Complete(cfg, msg, Start(attempt), a).log == [DeadPublished(Screen(cfg, msg).value, None, a.dead)]
        + if a.dead.Confirmed? then [Settled(TermCommand, a.reached)] else []
    ensures Screen(cfg, msg).None? ==>
      Complete(cfg, msg, Start(attempt), a) == Complete(cfg, msg, Advance(cfg, msg, Processed(msg, attempt, a), a), a)
  {
    hide Screen;
    var start := Start(attempt);
    var screened := Advance(cfg, msg, start, a);
    assert Complete(cfg, msg, start, a) == Complete(cfg, msg, screened, a);
    if Screen(cfg, msg).Some? {
      CompletionOfTail(cfg, msg, screened, a);
    } else {
      var processed := Processed(msg, attempt, a);
      assert Advance(cfg, msg, screened, a) == processed by {
        assert [] + [Dispatched(a.reply)] == [Dispatched(a.reply)];
      }
      assert Complete(cfg, msg, screened, a) == Complete(cfg, msg, processed, a);
      assert Complete(cfg, msg, processed, a) == Complete(cfg, msg, Advance(cfg, msg, processed, a), a);
    }
  }

  // ---- what the handler does, effect by effect

  /** The header gives the attempt, or is unusable and the attempt is the first. */
  predicate CountedAs(delivered: Option<int>, attempt: nat) {
    delivered == Some(attempt) || (attempt == 1 && (delivered.None? || delivered.value < 0))
  }

  /** The class that a reply stands for in the events and decisions of the service. */
  predicate Carries(reply: Reply, outcome: OutcomeClass) {
    || reply == Answered(outcome)
    || reply == DeliveryError(outcome)
    || (reply == NotConfigured && outcome == PermanentProviderFailure)
    || (reply == InternalError && outcome == InternalFailure)
  }

  /** What processing logs and reports: an invalid job is not dispatched, a reply is reported as its class. */
  predicate Reported(msg: Message, reply: Reply, dispatch: seq<Effect>, outcome: OutcomeClass) {
    if msg.envelope.Some? && !msg.envelope.value.jobValid then dispatch == [] && outcome == InvalidPayload
    else dispatch == [Dispatched(reply)] && Carries(reply, outcome)
  }

  /** The effects after processing, one line per case. */
  function Aftermath(cfg: Config, attempt: nat, outcome: OutcomeClass, a: Answers): seq<Effect> {
    var retryable := outcome in {Throttled, TransientProviderFailure, InternalFailure};
    if retryable && attempt < cfg.maxDeliver then [Settled(NakCommand(cfg.nakDelay), a.reached)]
    else if a.result.Failed? then
      [DeadPublished(ResultPublishFailedAfterTerminalOutcome, Some(outcome), a.dead), Settled(TermCommand, a.reached)]
    else if !retryable then [Settled(AckCommand, a.reached)]
    else if a.dead.Failed? then [DeadPublished(RetryBudgetExhausted, Some(outcome), a.dead)]
    else [DeadPublished(RetryBudgetExhausted, Some(outcome), a.dead), Settled(TermCommand, a.reached)]
  }

  /** For every screened message, header, reply and publish answers: the whole log of a handler that is not cut off. */
  lemma HandledExactly(cfg: Config, msg: Message, delivered: Option<int>, a: Answers,
      attempt: nat, dispatch: seq<Effect>, outcome: OutcomeClass)
    requires 0 < cfg.maxDeliver <= I64_MAX && Screen(cfg, msg).None?
    requires CountedAs(delivered, attempt) && Reported(msg, a.reply, dispatch, outcome)
    ensures Complete(cfg, msg, Start(AttemptOf(delivered)), a).log
         == dispatch + [ResultPublished(outcome, a.result)] + Aftermath(cfg, attempt, outcome, a)
  {
    ScreenedExactly(cfg, msg);
    hide Screen, Complete;
    CompletionOfStart(cfg, msg, attempt, a);
    var processed := Processed(msg, attempt, a);
    assert processed == Delivery(attempt, PublishingResult(outcome), dispatch);
    DocumentedDispositions(cfg.lane, outcome, attempt, cfg.maxDeliver, cfg.nakDelay);
    PublishFailureDispositions(cfg.lane, outcome, attempt, cfg.maxDeliver, cfg.nakDelay);
    hide ForOutcome, ForPublishFailure;
    CompletionOfTail(cfg, msg, Advance(cfg, msg, processed, a), a);
  }

  // ---- the handler as the source writes it

  /** The live resources of one handle_message call. `log` records every effect in order. */
  class Session {
    const cfg: Config
    const msg: Message
    const delivered: Option<int>
    const answers: Answers
    var log: seq<Effect>

    constructor (cfg: Config, msg: Message, delivered: Option<int>, answers: Answers)
      ensures this.cfg == cfg && this.msg == msg && this.delivered == delivered && this.answers == answers
      ensures log == []
    {
      this.cfg, this.msg, this.delivered, this.answers := cfg, msg, delivered, answers;
      log := [];
    }

    method PublishResult(outcome: OutcomeClass) returns (ok: bool)
      modifies this
      ensures ok <==> answers.result.Confirmed?
      ensures log == old(log) + [ResultPublished(outcome, answers.result)]
    {
      log := log + [ResultPublished(outcome, answers.result)];
      ok := answers.result.Confirmed?;
    }

    method PublishDead(reason: Reason, outcome: Option<OutcomeClass>) returns (ok: bool)
      modifies this
      ensures ok <==> answers.dead.Confirmed?
      ensures log == old(log) + [DeadPublished(reason, outcome, answers.dead)]
    {
      log := log + [DeadPublished(reason, outcome, answers.dead)];
      ok := answers.dead.Confirmed?;
    }

    method Settle(command: Command)
      modifies this
      ensures log == old(log) + [Settled(command, answers.reached)]
    {
      log := log + [Settled(command, answers.reached)];
    }

    method ProcessJob() returns (outcome: OutcomeClass)
      modifies this
      ensures outcome == if JobValid(msg) then ClassOf(answers.reply) else InvalidPayload
      ensures log == old(log) + if JobValid(msg) then [Dispatched(answers.reply)] else []
      ensures msg.envelope.Some? ==>
        exists dispatch :: Reported(msg, answers.reply, dispatch, outcome) && log == old(log) + dispatch
    {
      if !JobValid(msg) {
        assert msg.envelope.Some? ==> Reported(msg, answers.reply, [], InvalidPayload);
        return InvalidPayload;
      }
      log := log + [Dispatched(answers.reply)];
      outcome := ClassOf(answers.reply);
      assert Reported(msg, answers.reply, [Dispatched(answers.reply)], outcome);
    }

    /** handle_message: every effect it performs, in order, is the completed step machine's log. */
    method HandleMessage()
      requires log == []
      modifies this
      ensures log == Complete(cfg, msg, Start(AttemptOf(delivered)), answers).log
      ensures 0 < cfg.maxDeliver <= I64_MAX && Screen(cfg, msg).None? ==>
        forall attempt, dispatch, outcome ::
          CountedAs(delivered, attempt) && Reported(msg, answers.reply, dispatch, outcome) ==>
            log == dispatch + [ResultPublished(outcome, answers.result)] + Aftermath(cfg, attempt, outcome, answers)
    {
      if 0 < cfg.maxDeliver <= I64_MAX && Screen(cfg, msg).None? {
        forall n, dispatch, reported | CountedAs(delivered, n) && Reported(msg, answers.reply, dispatch, reported)
          ensures Complete(cfg, msg, Start(AttemptOf(delivered)), answers).log
            == dispatch + [ResultPublished(reported, answers.result)] + Aftermath(cfg, n, reported, answers)
        {
          HandledExactly(cfg, msg, delivered, answers, n, dispatch, reported);
        }
      }
      var attempt := AttemptOf(delivered);
      CompletionOfStart(cfg, msg, attempt, answers);
      hide Complete, Screen, ForOutcome, ForPublishFailure;
      var poison := Screen(cfg, msg);
      if poison.Some? {
        var ok := PublishDead(poison.value, None);
        if !ok {
          return;
        }
        Settle(TermCommand);
        return;
      }
      var outcome := ProcessJob();
      assert Processed(msg, attempt, answers) == Delivery(attempt, PublishingResult(outcome), log);
      var published := PublishResult(outcome);
      ghost var decided := Advance(cfg, msg, Processed(msg, attempt, answers), answers);
      assert decided.log == log;
      CompletionOfTail(cfg, msg, decided, answers);
      if !published {
        match ForPublishFailure(cfg.lane, outcome, attempt, cfg.maxDeliver, cfg.nakDelay) {
          case Ack => Settle(AckCommand);
          case Nak(delay) => Settle(NakCommand(delay));
          case DeadLetter =>
            var _ := PublishDead(ResultPublishFailedAfterTerminalOutcome, Some(outcome));
            Settle(TermCommand);
        }
        return;
      }
      match ForOutcome(cfg.lane, outcome, attempt, cfg.maxDeliver, cfg.nakDelay) {
        case Ack => Settle(AckCommand);
        case Nak(delay) => Settle(NakCommand(delay));
        case DeadLetter =>
          var ok := PublishDead(RetryBudgetExhausted, Some(outcome));
          if !ok {
            return;
          }
          Settle(TermCommand);
      }
    }
  }
}
