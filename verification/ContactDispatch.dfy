/** Contact dispatch: provider lookup, then the shared limiter, then the send. */
module ContactDispatch {
  import opened Common
  import opened RateLimit

  datatype Kind = Sendgrid | Twilio

  datatype Reply = Sent | NotConfigured | WrongKind | Throttled(hint: real)

  /** One provider slot of the registry: the kind of the provider in it, its limiter, and the times it has sent at. */
  datatype Slot = Slot(provider: Option<Kind>, limiter: Option<Bucket>, sends: seq<real>)

  function DispatchSlot(slot: Slot, kind: Kind, now: real): (Slot, Reply) {
    if slot.provider.None? then (slot, NotConfigured)
    else if slot.provider.value != kind then (slot, WrongKind)
    else
      match slot.limiter
      case None => (slot.(sends := slot.sends + [now]), Sent)
      case Some(bucket) =>
        var (bucket', take) := Taken(bucket, now);
        match take
        case Granted => (slot.(limiter := Some(bucket'), sends := slot.sends + [now]), Sent)
        case Denied(hint) => (slot.(limiter := Some(bucket')), Throttled(hint))
  }

  // ---- what a reply means

  /**
   * Which reply a call gets: the provider decides first, and only a limiter throttles, when it has no token left.
   * Sent, and only Sent, stands for one send, at the time of the call.
   */
  lemma RepliesExactly(slot: Slot, kind: Kind, now: real)
    ensures var (slot', reply) := DispatchSlot(slot, kind, now);
      slot'.sends == slot.sends + (if reply.Sent? then [now] else []) && slot'.provider == slot.provider
    ensures var reply := DispatchSlot(slot, kind, now).1;
      && (reply.NotConfigured? <==> slot.provider.None?)
      && (reply.WrongKind? <==> slot.provider.Some? && slot.provider.value != kind)
      && (slot.provider == Some(kind) && slot.limiter.None? ==> reply.Sent?)
      && (slot.provider == Some(kind) && slot.limiter.Some? && WellFormed(slot.limiter.value) && slot.limiter.value.last <= now ==>
            var b := slot.limiter.value;
            reply.Sent? <==> b.tokens + (now - b.last) * b.perSecond >= 1.0)
  {
    assert slot.sends + [] == slot.sends;
    if slot.limiter.Some? && WellFormed(slot.limiter.value) && slot.limiter.value.last <= now {
      FindsAToken(slot.limiter.value, now);
    }
  }

  /** A throttled call sends nothing and is told the truth: made again after the hint, or any later, it is sent. */
  lemma HintIsHonoured(slot: Slot, kind: Kind, now: real, later: real)
    requires slot.limiter.Some? ==> WellFormed(slot.limiter.value) && slot.limiter.value.last <= now
    requires var reply := DispatchSlot(slot, kind, now).1; reply.Throttled? && later >= now + reply.hint
    ensures DispatchSlot(slot, kind, now).0.sends == slot.sends
    ensures DispatchSlot(DispatchSlot(slot, kind, now).0, kind, later).1.Sent?
  {
    var b := slot.limiter.value;
    HintIsTheWait(b, now);
    HintIsSufficientAndTight(b, now, [], later);
    assert After(Taken(b, now).0, []) == Taken(b, now).0;
  }

  // ---- the registry as the source keeps it

  class ContactProvider {
    const kind: Kind
    var sends: seq<real>

    constructor (kind: Kind)
      ensures this.kind == kind && sends == []
    {
      this.kind := kind;
      sends := [];
    }

    method Send(now: real)
      modifies this
      ensures sends == old(sends) + [now]
    {
      sends := sends + [now];
    }
  }

  class ContactProviderRegistry {
    var sendgrid: ContactProvider?
    var twilio: ContactProvider?
    var sendgridLimiter: TokenBucket?
    var twilioLimiter: TokenBucket?

    /** The builders file every provider under its own kind and give every slot its own limiter. */
    ghost predicate Valid()
      reads this
    {
      && (sendgrid != null ==> sendgrid.kind == Sendgrid)
      && (twilio != null ==> twilio.kind == Twilio)
      && (sendgridLimiter != null ==> sendgridLimiter != twilioLimiter)
    }

    ghost function Repr(): set<object?>
      reads this
    {
      {sendgrid, twilio, sendgridLimiter, twilioLimiter}
    }

    ghost function SlotOf(kind: Kind): Slot
      reads this, Repr()
    {
      var provider := if kind == Sendgrid then sendgrid else twilio;
      var limiter := if kind == Sendgrid then sendgridLimiter else twilioLimiter;
      Slot(if provider == null then None else Some(provider.kind),
           if limiter == null then None else Some(limiter.Model()),
           if provider == null then [] else provider.sends)
    }

    constructor ()
      ensures Valid()
      ensures forall kind :: SlotOf(kind) == Slot(None, None, [])
    {
      sendgrid, twilio := null, null;
      sendgridLimiter, twilioLimiter := null, null;
    }

    method WithProvider(provider: ContactProvider)
      requires Valid()
      modifies this
      ensures Valid()
      ensures SlotOf(provider.kind) == old(SlotOf(provider.kind)).(provider := Some(provider.kind), sends := provider.sends)
      ensures forall kind :: kind != provider.kind ==> SlotOf(kind) == old(SlotOf(kind))
    {
      if provider.kind == Sendgrid {
        sendgrid := provider;
      } else {
        twilio := provider;
      }
    }

    method WithRateLimit(kind: Kind, perMinute: nat, now: real)
      requires Valid()
      modifies this
      ensures Valid()
      ensures SlotOf(kind) == old(SlotOf(kind)).(limiter := Some(PerMinute(perMinute, now)))
      ensures forall other :: other != kind ==> SlotOf(other) == old(SlotOf(other))
    {
      var limiter := new TokenBucket((if perMinute >= 1 then perMinute else 1) as real, now);
      if kind == Sendgrid {
        sendgridLimiter := limiter;
      } else {
        twilioLimiter := limiter;
      }
    }

    /** A clone is another registry object over the same providers and the same limiters. */
    method Clone() returns (other: ContactProviderRegistry)
      requires Valid()
      ensures fresh(other) && other.Valid()
      ensures other.sendgrid == sendgrid && other.twilio == twilio
      ensures other.sendgridLimiter == sendgridLimiter && other.twilioLimiter == twilioLimiter
    {
      other := new ContactProviderRegistry();
      other.sendgrid, other.twilio := sendgrid, twilio;
      other.sendgridLimiter, other.twilioLimiter := sendgridLimiter, twilioLimiter;
    }

    method Dispatch(kind: Kind, now: real) returns (reply: Reply)
      requires Valid()
      modifies Repr()
      ensures Valid()
      ensures (SlotOf(kind), reply) == DispatchSlot(old(SlotOf(kind)), kind, now)
      ensures forall other :: other != kind ==> SlotOf(other) == old(SlotOf(other))
      ensures !reply.WrongKind?
      ensures SlotOf(kind).sends == old(SlotOf(kind).sends) + if reply.Sent? then [now] else []
      ensures reply.NotConfigured? <==> old(SlotOf(kind)).provider.None?
      ensures old(SlotOf(kind)).provider.Some? && old(SlotOf(kind)).limiter.None? ==> reply.Sent?
    {
      var provider := if kind == Sendgrid then sendgrid else twilio;
      var limiter := if kind == Sendgrid then sendgridLimiter else twilioLimiter;
      if provider == null {
        return NotConfigured;
      }
      if provider.kind != kind {
        return WrongKind;
      }
      if limiter != null {
        var take := limiter.TryTake(now);
        if take.Denied? {
          return Throttled(take.hint);
        }
      }
      provider.Send(now);
      reply := Sent;
    }
  }

  /** Two lanes over clones of one registry: what the second finds is what the first has left. */
  method ServeBothLanes(http: ContactProviderRegistry, kind: Kind, first: real, second: real)
      returns (r1: Reply, r2: Reply)
    requires http.Valid()
    modifies http.Repr()
    ensures http.Valid()
    ensures var (slot, reply) := DispatchSlot(old(http.SlotOf(kind)), kind, first);
      r1 == reply && (http.SlotOf(kind), r2) == DispatchSlot(slot, kind, second)
  {
    var nats := http.Clone();
    r1 := http.Dispatch(kind, first);
    r2 := nats.Dispatch(kind, second);
  }

  // ---- runs of the service

  /** A dispatch by any caller; callers hold clones of one registry, so the caller changes nothing. */
  datatype Call = Call(caller: nat, kind: Kind, now: real)

  datatype Service = Service(sendgrid: Slot, twilio: Slot)

  function SlotFor(s: Service, kind: Kind): Slot {
    if kind == Sendgrid then s.sendgrid else s.twilio
  }

  function ServeCall(s: Service, call: Call): Service {
    var slot := DispatchSlot(SlotFor(s, call.kind), call.kind, call.now).0;
    if call.kind == Sendgrid then s.(sendgrid := slot) else s.(twilio := slot)
  }

  function Serve(s: Service, calls: seq<Call>): Service
    decreases |calls|
  {
    if calls == [] then s else Serve(ServeCall(s, calls[0]), calls[1..])
  }

  /** What each caller is told. */
  function Replies(s: Service, calls: seq<Call>): (replies: seq<Reply>)
    ensures |replies| == |calls|
    decreases |calls|
  {
    if calls == [] then []
    else
      [DispatchSlot(SlotFor(s, calls[0].kind), calls[0].kind, calls[0].now).1] + Replies(ServeCall(s, calls[0]), calls[1..])
  }

  /** The times of the calls of a kind whose callers were told that the message is sent. */
  function ToldSent(calls: seq<Call>, replies: seq<Reply>, kind: Kind): seq<real>
    requires |replies| == |calls|
  {
    if calls == [] then []
    else
      (if calls[0].kind == kind && replies[0].Sent? then [calls[0].now] else []) + ToldSent(calls[1..], replies[1..], kind)
  }

  /** Over every run callers are told the truth: a provider has sent exactly what its callers were told is sent. */
  lemma {:induction false} CallersAreToldTheTruth(s: Service, calls: seq<Call>, kind: Kind)
    ensures SlotFor(Serve(s, calls), kind).sends == SlotFor(s, kind).sends + ToldSent(calls, Replies(s, calls), kind)
    decreases |calls|
  {
    hide DispatchSlot;
    var sends := SlotFor(s, kind).sends;
    if calls == [] {
      assert sends + [] == sends;
    } else {
      var call, next, replies := calls[0], ServeCall(s, calls[0]), Replies(s, calls);
      RepliesExactly(SlotFor(s, call.kind), call.kind, call.now);
      CallersAreToldTheTruth(next, calls[1..], kind);
      assert replies[1..] == Replies(next, calls[1..]);
      var told := if call.kind == kind && replies[0].Sent? then [call.now] else [];
      assert sends + [] == sends;
      assert SlotFor(next, kind).sends == sends + told;
      var rest := ToldSent(calls[1..], Replies(next, calls[1..]), kind);
      assert sends + told + rest == sends + (told + rest);
    }
  }

  function TimesOf(calls: seq<Call>, kind: Kind): seq<real> {
    if calls == [] then []
    else (if calls[0].kind == kind then [calls[0].now] else []) + TimesOf(calls[1..], kind)
  }

  /** Calls take the limiter's lock one after another, and the clock is read under the lock. */
  predicate InOrder(start: real, calls: seq<Call>)
    decreases |calls|
  {
    calls == [] || (start <= calls[0].now && InOrder(calls[0].now, calls[1..]))
  }

  lemma {:induction false} TimesInOrder(start: real, earlier: real, calls: seq<Call>, kind: Kind)
    requires InOrder(start, calls) && earlier <= start
    ensures Nondecreasing(earlier, TimesOf(calls, kind))
    decreases |calls|
  {
    if calls != [] {
      var rest := TimesOf(calls[1..], kind);
      if calls[0].kind == kind {
        TimesInOrder(calls[0].now, calls[0].now, calls[1..], kind);
        assert TimesOf(calls, kind)[1..] == rest;
      } else {
        TimesInOrder(calls[0].now, earlier, calls[1..], kind);
        assert TimesOf(calls, kind) == rest;
      }
    }
  }

  /** The first call of a run and the rest of it. */
  lemma RunSplits(b: Bucket, u: real, rest: seq<real>)
    ensures After(b, [u] + rest) == After(Taken(b, u).0, rest)
    ensures Filter([u] + rest, Decisions(b, [u] + rest))
         == (if Taken(b, u).1.Granted? then [u] else []) + Filter(rest, Decisions(Taken(b, u).0, rest))
  {
    hide Taken;
    var times := [u] + rest;
    assert times[1..] == rest;
    assert Decisions(b, times)[1..] == Decisions(Taken(b, u).0, rest);
  }

  /** One slot alone, called at the given times. */
  function ServeSlot(slot: Slot, kind: Kind, times: seq<real>): Slot
    decreases |times|
  {
    if times == [] then slot else ServeSlot(DispatchSlot(slot, kind, times[0]).0, kind, times[1..])
  }

  /** A slot sees only the calls of its kind, whoever made them and whatever the other slot does. */
  lemma {:induction false} SlotsAreIndependent(s: Service, calls: seq<Call>, kind: Kind)
    ensures SlotFor(Serve(s, calls), kind) == ServeSlot(SlotFor(s, kind), kind, TimesOf(calls, kind))
    decreases |calls|
  {
    hide DispatchSlot;
    if calls != [] {
      SlotsAreIndependent(ServeCall(s, calls[0]), calls[1..], kind);
      var rest := TimesOf(calls[1..], kind);
      if calls[0].kind == kind {
        assert TimesOf(calls, kind) == [calls[0].now] + rest && ([calls[0].now] + rest)[1..] == rest;
      } else {
        assert TimesOf(calls, kind) == rest;
      }
    }
  }

  lemma {:induction false} SlotSendsGrants(b: Bucket, sends: seq<real>, kind: Kind, times: seq<real>)
    ensures ServeSlot(Slot(Some(kind), Some(b), sends), kind, times)
         == Slot(Some(kind), Some(After(b, times)), sends + Filter(times, Decisions(b, times)))
    decreases |times|
  {
    if times == [] {
      assert sends + [] == sends;
    } else {
      hide Taken, Filter, Decisions, After;
      var u, rest := times[0], times[1..];
      var (next, take) := Taken(b, u);
      var sends' := sends + if take.Granted? then [u] else [];
      assert sends + [] == sends;
      SlotSendsGrants(next, sends', kind, rest);
      RunSplits(b, u, rest);
      assert [u] + rest == times;
      var more := Filter(rest, Decisions(next, rest));
      assert sends' + more == sends + ((if take.Granted? then [u] else []) + more);
    }
  }

  /** Provider sends are exactly the granted calls of that provider, whoever made them. */
  lemma SendsAreGrants(s: Service, calls: seq<Call>, kind: Kind)
    requires SlotFor(s, kind).provider == Some(kind) && SlotFor(s, kind).limiter.Some?
    ensures var b := SlotFor(s, kind).limiter.value;
      var times := TimesOf(calls, kind);
      SlotFor(Serve(s, calls), kind)
        == Slot(Some(kind), Some(After(b, times)), SlotFor(s, kind).sends + Filter(times, Decisions(b, times)))
  {
    hide Serve, TimesOf, ServeSlot, Filter, Decisions, After;
    SlotsAreIndependent(s, calls, kind);
    SlotSendsGrants(SlotFor(s, kind).limiter.value, SlotFor(s, kind).sends, kind, TimesOf(calls, kind));
  }

  function CountWithin(times: seq<real>, s: real, t: real): nat {
    if times == [] then 0 else (if s <= times[0] <= t then 1 else 0) + CountWithin(times[1..], s, t)
  }

  lemma {:induction false} GrantsCounted(b: Bucket, times: seq<real>, s: real, t: real)
    ensures CountWithin(Filter(times, Decisions(b, times)), s, t) == GrantsIn(b, times, s, t)
    ensures |Filter(times, Decisions(b, times))| == Count(Decisions(b, times))
    decreases |times|
  {
    hide Taken;
    if times != [] {
      var next := Taken(b, times[0]).0;
      GrantsCounted(next, times[1..], s, t);
      var ds := Decisions(b, times);
      assert ds[1..] == Decisions(next, times[1..]);
      var rest := Filter(times[1..], ds[1..]);
      if ds[0] {
        assert Filter(times, ds) == [times[0]] + rest && ([times[0]] + rest)[1..] == rest;
      } else {
        assert Filter(times, ds) == rest;
      }
    }
  }

  function EffectiveLimit(limit: nat): nat {
    if limit >= 1 then limit else 1
  }

  /**
   * In every run, over any interleaving of callers and providers, a limited provider sends at most
   * limit + (t - s) * limit / 60 times in any window [s, t], and consumes one token per send.
   */
  lemma ProviderWindowBound(limit: nat, start: real, service: Service, calls: seq<Call>, kind: Kind, s: real, t: real)
    requires SlotFor(service, kind) == Slot(Some(kind), Some(PerMinute(limit, start)), [])
    requires InOrder(start, calls) && s <= t
    ensures var sends := SlotFor(Serve(service, calls), kind).sends;
      var perMinute := EffectiveLimit(limit) as real;
      && CountWithin(sends, s, t) as real <= perMinute + (t - s) * (perMinute / 60.0)
      && |sends| == Count(Decisions(PerMinute(limit, start), TimesOf(calls, kind)))
  {
    hide Serve, TimesOf, Filter, Decisions, CountWithin, GrantsIn, Count, InOrder, Nondecreasing;
    var b := PerMinute(limit, start);
    var times := TimesOf(calls, kind);
    SendsAreGrants(service, calls, kind);
    assert [] + Filter(times, Decisions(b, times)) == Filter(times, Decisions(b, times));
    GrantsCounted(b, times, s, t);
    TimesInOrder(start, start, calls, kind);
    WindowBound(b, times, s, t);
  }
}
