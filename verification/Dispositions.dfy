/** Outcome classes and the settlement decisions of both ingestion lanes. */
module Dispositions {
  import opened Common

  /** The seven outcome classes of either lane (the push lane calls InvalidTarget "invalid token"). */
  datatype OutcomeClass =
    | Accepted
    | InvalidTarget
    | InvalidPayload
    | Throttled
    | TransientProviderFailure
    | PermanentProviderFailure
    | InternalFailure

  predicate Retryable(outcome: OutcomeClass) {
    outcome.Throttled? || outcome.TransientProviderFailure? || outcome.InternalFailure?
  }

  datatype Lane = Push | Contact

  datatype Disposition = Ack | Nak(delay: nat) | DeadLetter

  /** The number of attempts that max_deliver stands for: a negative one counts as the largest u64. */
  function AttemptBudget(maxDeliver: int): nat {
    if maxDeliver < 0 then U64_MAX else maxDeliver
  }

  function PushForOutcome(outcome: OutcomeClass, attempt: nat, maxDeliver: int, nakDelay: nat): Disposition {
    if !Retryable(outcome) then Ack
    else if maxDeliver > 0 && attempt >= AttemptBudget(maxDeliver) then DeadLetter
    else Nak(nakDelay)
  }

  function PushForPublishFailure(outcome: OutcomeClass, attempt: nat, maxDeliver: int, nakDelay: nat): Disposition {
    if Retryable(outcome) then PushForOutcome(outcome, attempt, maxDeliver, nakDelay) else DeadLetter
  }

  function ContactForOutcome(outcome: OutcomeClass, attempt: nat, maxDeliver: int, nakDelay: nat): Disposition {
    if !Retryable(outcome) then Ack
    else if attempt >= AttemptBudget(maxDeliver) then DeadLetter
    else Nak(nakDelay)
  }

  function ContactForPublishFailure(outcome: OutcomeClass, attempt: nat, maxDeliver: int, nakDelay: nat): Disposition {
    if outcome.Accepted? || !Retryable(outcome) then DeadLetter
    else ContactForOutcome(outcome, attempt, maxDeliver, nakDelay)
  }

  function ForOutcome(lane: Lane, outcome: OutcomeClass, attempt: nat, maxDeliver: int, nakDelay: nat): Disposition {
    match lane
    case Push => PushForOutcome(outcome, attempt, maxDeliver, nakDelay)
    case Contact => ContactForOutcome(outcome, attempt, maxDeliver, nakDelay)
  }

  function ForPublishFailure(lane: Lane, outcome: OutcomeClass, attempt: nat, maxDeliver: int, nakDelay: nat): Disposition {
    match lane
    case Push => PushForPublishFailure(outcome, attempt, maxDeliver, nakDelay)
    case Contact => ContactForPublishFailure(outcome, attempt, maxDeliver, nakDelay)
  }

  /** The two lanes decide alike exactly outside the misconfigurations that the config parser refuses. */
  lemma LanesAgreeExactly(outcome: OutcomeClass, attempt: nat, maxDeliver: int, nakDelay: nat)
    requires attempt <= U64_MAX && I64_MIN <= maxDeliver <= I64_MAX
    ensures PushForOutcome(outcome, attempt, maxDeliver, nakDelay) == ContactForOutcome(outcome, attempt, maxDeliver, nakDelay)
       <==> !Retryable(outcome) || maxDeliver > 0 || (maxDeliver < 0 && attempt < U64_MAX)
    ensures PushForPublishFailure(outcome, attempt, maxDeliver, nakDelay) == ContactForPublishFailure(outcome, attempt, maxDeliver, nakDelay)
       <==> !Retryable(outcome) || maxDeliver > 0 || (maxDeliver < 0 && attempt < U64_MAX)
  {
  }

  /** The documented dispositions after a published result, for both lanes. */
  lemma DocumentedDispositions(lane: Lane, outcome: OutcomeClass, attempt: nat, maxDeliver: int, nakDelay: nat)
    requires 0 < maxDeliver <= I64_MAX
    ensures var d := ForOutcome(lane, outcome, attempt, maxDeliver, nakDelay);
      && (d.Ack? <==> outcome in {Accepted, InvalidTarget, InvalidPayload, PermanentProviderFailure})
      && (d == Nak(nakDelay) <==>
            outcome in {Throttled, TransientProviderFailure, InternalFailure} && attempt < maxDeliver)
      && (d.DeadLetter? <==>
            outcome in {Throttled, TransientProviderFailure, InternalFailure} && attempt >= maxDeliver)
  {
  }

  /** A failed result publish is never acknowledged, and is Nak-ed exactly where a published one would be. */
  lemma PublishFailureDispositions(lane: Lane, outcome: OutcomeClass, attempt: nat, maxDeliver: int, nakDelay: nat)
    requires 0 < maxDeliver <= I64_MAX
    ensures var d := ForPublishFailure(lane, outcome, attempt, maxDeliver, nakDelay);
      var published := ForOutcome(lane, outcome, attempt, maxDeliver, nakDelay);
      !d.Ack? && (d.Nak? <==> published.Nak?) && (d.Nak? ==> d == published)
  {
  }
}
