/** The contact lane as a whole: the handler of a job and the registry that it dispatches to. */
module ContactLane {
  import opened Common
  import opened RateLimit
  import Dispositions
  import Handler
  import ContactDispatch

  /** What the handler learns from a dispatch; a sent message gets whatever the provider answers. */
  function AnswerTo(reply: ContactDispatch.Reply, answered: Dispositions.OutcomeClass): Handler.Reply {
    match reply
    case Sent => Handler.Answered(answered)
    case NotConfigured => Handler.NotConfigured
    case WrongKind => Handler.InternalError
    case Throttled(_) => Handler.DeliveryError(Dispositions.Throttled)
  }

  /** One handled contact job: what is logged, and what the dispatch does to the slot. */
  predicate Handles(cfg: Handler.Config, msg: Handler.Message, delivered: Option<int>, a: Handler.Answers,
      slot: ContactDispatch.Slot, kind: ContactDispatch.Kind, now: real, answered: Dispositions.OutcomeClass,
      log: seq<Handler.Effect>)
  {
    && cfg.lane.Contact? && 0 < cfg.maxDeliver <= I64_MAX
    && Handler.Screen(cfg, msg).None? && Handler.JobValid(msg)
    && a.reply == AnswerTo(ContactDispatch.DispatchSlot(slot, kind, now).1, answered)
    && log == Handler.Complete(cfg, msg, Handler.Start(Handler.AttemptOf(delivered)), a).log
  }

  predicate InService(slot: ContactDispatch.Slot, kind: ContactDispatch.Kind, now: real) {
    slot.provider == Some(kind) && (slot.limiter.Some? ==> WellFormed(slot.limiter.value) && slot.limiter.value.last <= now)
  }

  /**
   * A job that the local limiter stops, with attempts left, is not sent and always Nak-ed, whatever its publishes do;
   * and if the Nak delay, in nanoseconds, covers the limiter's hint, its redelivery is sent unless others took the token.
   */
  lemma ThrottledJobComesBack(cfg: Handler.Config, msg: Handler.Message, delivered: Option<int>, attempt: nat,
      a: Handler.Answers, slot: ContactDispatch.Slot, kind: ContactDispatch.Kind, now: real,
      answered: Dispositions.OutcomeClass, log: seq<Handler.Effect>, again: real)
    requires Handles(cfg, msg, delivered, a, slot, kind, now, answered, log) && InService(slot, kind, now)
    requires Handler.CountedAs(delivered, attempt) && attempt < cfg.maxDeliver
    requires ContactDispatch.DispatchSlot(slot, kind, now).1.Throttled?
    requires again >= now + cfg.nakDelay as real / 1_000_000_000.0
    ensures log == [Handler.Dispatched(Handler.DeliveryError(Dispositions.Throttled)),
                    Handler.ResultPublished(Dispositions.Throttled, a.result),
                    Handler.Settled(Handler.NakCommand(cfg.nakDelay), a.reached)]
    ensures ContactDispatch.DispatchSlot(slot, kind, now).0.sends == slot.sends
    ensures cfg.nakDelay as real / 1_000_000_000.0 >= ContactDispatch.DispatchSlot(slot, kind, now).1.hint ==>
      ContactDispatch.DispatchSlot(ContactDispatch.DispatchSlot(slot, kind, now).0, kind, again).1.Sent?
  {
    hide Handler.Screen, Handler.Complete, ContactDispatch.DispatchSlot;
    Handler.HandledExactly(cfg, msg, delivered, a, attempt, [Handler.Dispatched(a.reply)], Dispositions.Throttled);
    ContactDispatch.RepliesExactly(slot, kind, now);
    assert slot.sends + [] == slot.sends;
    var reply := ContactDispatch.DispatchSlot(slot, kind, now).1;
    if cfg.nakDelay as real / 1_000_000_000.0 >= reply.hint {
      ContactDispatch.HintIsHonoured(slot, kind, now, again);
    }
  }

  /**
   * The provider of an accepted job has sent it, and a job is logged as accepted only if its provider was asked:
   * no configuration error, no throttling and no wrong provider ever passes for an answer.
   */
  lemma AcceptedMeansSent(cfg: Handler.Config, msg: Handler.Message, delivered: Option<int>, attempt: nat,
      a: Handler.Answers, slot: ContactDispatch.Slot, kind: ContactDispatch.Kind, now: real,
      answered: Dispositions.OutcomeClass, log: seq<Handler.Effect>)
    requires Handles(cfg, msg, delivered, a, slot, kind, now, answered, log)
    requires Handler.CountedAs(delivered, attempt)
    ensures Handler.ResultPublished(Dispositions.Accepted, a.result) in log ==>
      answered.Accepted? && ContactDispatch.DispatchSlot(slot, kind, now).0.sends == slot.sends + [now]
  {
    hide Handler.Screen, Handler.Complete, ContactDispatch.DispatchSlot;
    ContactDispatch.RepliesExactly(slot, kind, now);
    var outcome := Handler.ClassOf(a.reply);
    Handler.HandledExactly(cfg, msg, delivered, a, attempt, [Handler.Dispatched(a.reply)], outcome);
  }

  /** Without a provider a job fails for good, behind a wrong one it fails internally; neither is ever sent. */
  lemma UnservedJobsFail(cfg: Handler.Config, msg: Handler.Message, delivered: Option<int>, attempt: nat,
      a: Handler.Answers, slot: ContactDispatch.Slot, kind: ContactDispatch.Kind, now: real,
      answered: Dispositions.OutcomeClass, log: seq<Handler.Effect>)
    requires Handles(cfg, msg, delivered, a, slot, kind, now, answered, log)
    requires Handler.CountedAs(delivered, attempt) && slot.provider != Some(kind)
    ensures |log| >= 2 && log[1].ResultPublished?
    ensures log[1].outcome == if slot.provider.None? then Dispositions.PermanentProviderFailure else Dispositions.InternalFailure
    ensures ContactDispatch.DispatchSlot(slot, kind, now).0.sends == slot.sends
  {
    hide Handler.Screen, Handler.Complete, ContactDispatch.DispatchSlot;
    ContactDispatch.RepliesExactly(slot, kind, now);
    assert slot.sends + [] == slot.sends;
    var outcome := if slot.provider.None? then Dispositions.PermanentProviderFailure else Dispositions.InternalFailure;
    Handler.HandledExactly(cfg, msg, delivered, a, attempt, [Handler.Dispatched(a.reply)], outcome);
  }
}
