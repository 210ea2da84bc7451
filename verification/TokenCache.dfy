/** The single-flight provider token caches: one slot behind one lock, held through the refresh. Times are nanoseconds. */
module TokenCache {
  import opened Common

  const SECOND: nat := 1_000_000_000
  const PROVIDER_TOKEN_CACHE_SECONDS: nat := 50 * 60
  const JWT_LIFETIME_SECONDS: nat := 3_600
  const ACCESS_TOKEN_REFRESH_MARGIN_SECONDS: nat := 60

  /** APNs tokens are signed locally and cached for a fixed time. */
  function ApnsLifetime(): nat {
    PROVIDER_TOKEN_CACHE_SECONDS * SECOND
  }

  /** FCM tokens are cached for the announced lifetime less a margin, saturating at zero, but at least a second. */
  function FcmLifetime(expiresIn: Option<nat>): nat {
    var announced := if expiresIn.Some? then expiresIn.value else JWT_LIFETIME_SECONDS;
    var usable := if announced >= ACCESS_TOKEN_REFRESH_MARGIN_SECONDS
                  then announced - ACCESS_TOKEN_REFRESH_MARGIN_SECONDS else 0;
    (if usable >= 1 then usable else 1) * SECOND
  }

  type Token = string

  datatype Cached = Cached(value: Token, expiresAt: nat)

  /** How a refresh ends: a new token with its cache lifetime, or an error. */
  datatype Refresh = Minted(value: Token, lifetime: nat) | RefreshFailed

  predicate Fresh(slot: Option<Cached>, now: nat) {
    slot.Some? && slot.value.expiresAt > now
  }

  function AfterRefresh(slot: Option<Cached>, refresh: Refresh, done: nat): Option<Cached> {
    match refresh
    case Minted(value, lifetime) => Some(Cached(value, done + lifetime))
    case RefreshFailed => slot
  }

  /** A whole call under the lock: what the slot becomes and what the caller gets. */
  function Served(slot: Option<Cached>, now: nat, refresh: Refresh, done: nat): (Option<Cached>, Option<Token>) {
    if Fresh(slot, now) then (slot, Some(slot.value.value))
    else (AfterRefresh(slot, refresh, done), if refresh.Minted? then Some(refresh.value) else None)
  }

  // ---- the cache as the source keeps it

  class Cache {
    var slot: Option<Cached>

    constructor ()
      ensures slot == None
    {
      slot := None;
    }

    /** One call under the lock; the slot is read at `now`, and a refresh, if one is needed, ends at `done`. */
    method GetToken(now: nat, refresh: Refresh, done: nat) returns (token: Option<Token>)
      requires now <= done
      modifies this
      ensures (slot, token) == Served(old(slot), now, refresh, done)
      ensures token.Some? && (refresh.Minted? ==> refresh.lifetime > 0) ==>
        slot.Some? && slot.value.value == token.value && Fresh(slot, if Fresh(old(slot), now) then now else done)
    {
      if slot.Some? {
        if slot.value.expiresAt > now {
          return Some(slot.value.value);
        }
      }
      match refresh {
        case RefreshFailed => token := None;
        case Minted(value, lifetime) =>
          slot := Some(Cached(value, done + lifetime));
          token := Some(value);
      }
    }
  }

  // ---- many callers

  datatype Mint = Mint(value: Token, at: nat, expiresAt: nat)

  datatype Return = Return(caller: nat, value: Token, at: nat)

  datatype State = State(
    now: nat,
    slot: Option<Cached>,
    waiting: set<nat>,         // callers queued at the lock
    holder: Option<nat>,       // the caller that holds the lock through its refresh
    mints: seq<Mint>,
    handed: seq<Return>)

  datatype Label =
    | Tick(d: nat)
    | Call(c: nat)
    | Lock(c: nat)              // a queued caller finds the lock free
    | Finish(refresh: Refresh)  // the holder's refresh ends
    | Cancel(c: nat)            // a caller is dropped while queued or while refreshing

  const Initial := State(0, None, {}, None, [], [])

  function Step(s: State, l: Label): State {
    match l
    case Tick(d) => s.(now := s.now + d)
    case Call(c) => if s.holder == Some(c) then s else s.(waiting := s.waiting + {c})
    case Lock(c) =>
      if c !in s.waiting || s.holder.Some? then s
      else if Fresh(s.slot, s.now) then
        s.(waiting := s.waiting - {c}, handed := s.handed + [Return(c, s.slot.value.value, s.now)])
      else
        s.(waiting := s.waiting - {c}, holder := Some(c))
    case Finish(refresh) =>
      if s.holder.None? then s
      else
        var s' := s.(holder := None, slot := AfterRefresh(s.slot, refresh, s.now));
        if refresh.RefreshFailed? then s'
        else s'.(mints := s.mints + [Mint(refresh.value, s.now, s.now + refresh.lifetime)],
                 handed := s.handed + [Return(s.holder.value, refresh.value, s.now)])
    case Cancel(c) => s.(waiting := s.waiting - {c}, holder := if s.holder == Some(c) then None else s.holder)
  }

  function Exec(s: State, run: seq<Label>): State
    decreases |run|
  {
    if run == [] then s else Exec(Step(s, run[0]), run[1..])
  }

  lemma ExecSplits(s: State, l: Label, rest: seq<Label>)
    ensures Exec(s, [l] + rest) == Exec(Step(s, l), rest)
  {
    assert ([l] + rest)[1..] == rest;
  }

  /** A caller that comes while the lock is free and is not cancelled gets what a call of the cache alone would give it. */
  lemma QueuedCallIsServed(s: State, c: nat, refresh: Refresh, d: nat)
    requires s.holder.None?
    ensures var s' := Exec(s, [Call(c), Lock(c), Tick(d), Finish(refresh)]);
      var (slot, token) := Served(s.slot, s.now, refresh, s.now + d);
      var at := if Fresh(s.slot, s.now) then s.now else s.now + d;
      && s'.slot == slot && s'.holder.None? && c !in s'.waiting
      && s'.handed == s.handed + if token.Some? then [Return(c, token.value, at)] else []
  {
    var called := Step(s, Call(c));
    var locked := Step(called, Lock(c));
    var ticked := Step(locked, Tick(d));
    var tail := [Tick(d), Finish(refresh)];
    assert [Call(c), Lock(c), Tick(d), Finish(refresh)] == [Call(c)] + ([Lock(c)] + tail);
    assert tail == [Tick(d)] + [Finish(refresh)] && [Finish(refresh)] == [Finish(refresh)] + [];
    ExecSplits(s, Call(c), [Lock(c)] + tail);
    ExecSplits(called, Lock(c), tail);
    ExecSplits(locked, Tick(d), [Finish(refresh)]);
    ExecSplits(ticked, Finish(refresh), []);
  }

  /** Every mint of the run caches for at least `lifetime`. */
  predicate LivesAtLeast(lifetime: nat, run: seq<Label>) {
    forall l :: l in run && l.Finish? && l.refresh.Minted? ==> l.refresh.lifetime >= lifetime
  }

  /** A return hands out the token of a mint that has happened and has not expired. */
  predicate Honest(mints: seq<Mint>, r: Return) {
    exists m :: m in mints && m.value == r.value && m.at <= r.at < m.expiresAt
  }

  /** Mint i caches for at least `lifetime`, and no earlier than the expiry of the mint before. */
  predicate Spaced(lifetime: nat, mints: seq<Mint>, i: nat)
    requires i < |mints|
  {
    && mints[i].expiresAt >= mints[i].at + lifetime
    && (i > 0 ==> mints[i].at >= mints[i - 1].expiresAt)
  }

  predicate AllSpaced(lifetime: nat, mints: seq<Mint>) {
    forall i {:trigger Spaced(lifetime, mints, i)} :: 0 <= i < |mints| ==> Spaced(lifetime, mints, i)
  }

  predicate AllHonest(mints: seq<Mint>, rs: seq<Return>) {
    forall r :: r in rs ==> Honest(mints, r)
  }

  /** The slot is the last mint, and it has already happened. */
  predicate SlotIsLastMint(s: State) {
    if s.mints == [] then s.slot.None?
    else
      var last := s.mints[|s.mints| - 1];
      s.slot == Some(Cached(last.value, last.expiresAt)) && last.at <= s.now
  }

  predicate Sound(lifetime: nat, s: State) {
    && SlotIsLastMint(s)
    && AllSpaced(lifetime, s.mints)
    && (s.holder.Some? ==> !Fresh(s.slot, s.now))
    && AllHonest(s.mints, s.handed)
  }

  lemma SpacedAppend(lifetime: nat, mints: seq<Mint>, m: Mint)
    requires AllSpaced(lifetime, mints) && m.expiresAt >= m.at + lifetime
    requires mints != [] ==> m.at >= mints[|mints| - 1].expiresAt
    ensures AllSpaced(lifetime, mints + [m])
  {
    forall i | 0 <= i < |mints| + 1
      ensures Spaced(lifetime, mints + [m], i)
    {
      assert i < |mints| ==> Spaced(lifetime, mints, i);
    }
  }

  lemma HonestAppend(mints: seq<Mint>, more: seq<Mint>, rs: seq<Return>, r: Return)
    requires AllHonest(mints, rs) && Honest(mints + more, r)
    ensures AllHonest(mints + more, rs + [r])
  {
    forall q | q in rs
      ensures Honest(mints + more, q)
    {
      var m :| m in mints && m.value == q.value && m.at <= q.at < m.expiresAt;
      assert m in mints + more;
    }
  }

  lemma StepKeepsSound(lifetime: nat, s: State, l: Label)
    requires lifetime > 0 && Sound(lifetime, s) && LivesAtLeast(lifetime, [l])
    ensures Sound(lifetime, Step(s, l))
  {
    hide Spaced, Honest, AllSpaced, AllHonest;
    assert l in [l];
    match l
    case Lock(c) =>
      if c in s.waiting && s.holder.None? && Fresh(s.slot, s.now) {
        LastMintIsHonest(s.mints, c, s.now);
        assert s.mints + [] == s.mints;
        HonestAppend(s.mints, [], s.handed, Return(c, s.slot.value.value, s.now));
      }
    case Finish(refresh) =>
      if s.holder.Some? && refresh.Minted? {
        var m := Mint(refresh.value, s.now, s.now + refresh.lifetime);
        SpacedAppend(lifetime, s.mints, m);
        LastMintIsHonest(s.mints + [m], s.holder.value, s.now);
        HonestAppend(s.mints, [m], s.handed, Return(s.holder.value, refresh.value, s.now));
      }
    case _ =>
  }

  lemma LastMintIsHonest(mints: seq<Mint>, c: nat, now: nat)
    requires mints != [] && mints[|mints| - 1].at <= now < mints[|mints| - 1].expiresAt
    ensures Honest(mints, Return(c, mints[|mints| - 1].value, now))
  {
    assert mints[|mints| - 1] in mints;
  }

  /** Whatever the interleaving, failures and cancellations, the cache invariant holds throughout. */
  lemma {:induction false} RunsAreSound(lifetime: nat, s: State, run: seq<Label>)
    requires lifetime > 0 && Sound(lifetime, s) && LivesAtLeast(lifetime, run)
    ensures Sound(lifetime, Exec(s, run))
    decreases |run|
  {
    if run != [] {
      assert run[0] in run && forall l :: l in run[1..] ==> l in run;
      StepKeepsSound(lifetime, s, run[0]);
      RunsAreSound(lifetime, Step(s, run[0]), run[1..]);
    }
  }

  /** No caller is ever given a token at or after its expiry. */
  lemma NoExpiredTokenIsReturned(lifetime: nat, run: seq<Label>, r: Return)
    requires lifetime > 0 && LivesAtLeast(lifetime, run) && r in Exec(Initial, run).handed
    ensures exists m :: m in Exec(Initial, run).mints && m.value == r.value && m.at <= r.at < m.expiresAt
  {
    RunsAreSound(lifetime, Initial, run);
    assert Honest(Exec(Initial, run).mints, r);
  }

  /** Successful mints are separated by the cache lifetime of the token before: j - i mints take (j - i) lifetimes. */
  lemma MintsAreSeparated(lifetime: nat, run: seq<Label>, i: nat, j: nat)
    requires lifetime > 0 && LivesAtLeast(lifetime, run)
    requires i <= j < |Exec(Initial, run).mints|
    ensures var mints := Exec(Initial, run).mints;
      && mints[j].at >= mints[i].at + (j - i) * lifetime
      && (i < j ==> mints[j].at >= mints[i].expiresAt)
  {
    RunsAreSound(lifetime, Initial, run);
    SpacedMintsAreSeparated(lifetime, Exec(Initial, run).mints, i, j);
  }

  lemma {:induction false} SpacedMintsAreSeparated(lifetime: nat, mints: seq<Mint>, i: nat, j: nat)
    requires AllSpaced(lifetime, mints) && i <= j < |mints|
    ensures mints[j].at >= mints[i].at + (j - i) * lifetime
    ensures i < j ==> mints[j].at >= mints[i].expiresAt
  {
    if i < j {
      SpacedMintsAreSeparated(lifetime, mints, i, j - 1);
      assert Spaced(lifetime, mints, j) && Spaced(lifetime, mints, j - 1);
      Multiply(j - i, lifetime);
    }
  }

  lemma Multiply(n: nat, x: nat)
    requires n > 0
    ensures n * x == (n - 1) * x + x
  {
  }

  /** The two providers: 3000 s between APNs mints, and for FCM the announced lifetime less the margin. */
  lemma ProviderLifetimes(run: seq<Label>, announced: nat, i: nat, j: nat)
    requires i <= j < |Exec(Initial, run).mints|
    ensures LivesAtLeast(ApnsLifetime(), run) ==>
      Exec(Initial, run).mints[j].at >= Exec(Initial, run).mints[i].at + (j - i) * (3_000 * SECOND)
    ensures LivesAtLeast(FcmLifetime(Some(announced)), run) ==>
      Exec(Initial, run).mints[j].at >= Exec(Initial, run).mints[i].at + (j - i) * (Max(1, announced - 60) * SECOND)
    ensures FcmLifetime(None) == 3_540 * SECOND
  {
    if LivesAtLeast(ApnsLifetime(), run) {
      MintsAreSeparated(ApnsLifetime(), run, i, j);
    }
    if LivesAtLeast(FcmLifetime(Some(announced)), run) {
      MintsAreSeparated(FcmLifetime(Some(announced)), run, i, j);
    }
  }

  // ---- no token is kept too long

  /** The refresh `l` of the run made this mint. */
  predicate MadeBy(run: seq<Label>, l: Label, m: Mint) {
    && l in run && l.Finish? && l.refresh.Minted?
    && l.refresh.value == m.value && m.at + l.refresh.lifetime == m.expiresAt
  }

  lemma {:induction false} MintsComeFromRefreshes(s: State, run: seq<Label>, m: Mint) returns (l: Label)
    requires m in Exec(s, run).mints && m !in s.mints
    ensures MadeBy(run, l, m)
    decreases |run|
  {
    if run != [] {
      var next := Step(s, run[0]);
      if m in next.mints {
        l := run[0];
      } else {
        l := MintsComeFromRefreshes(next, run[1..], m);
      }
    }
  }

  /** A token that was refreshed, at some time `at`, with this cache lifetime, which had not passed at the return. */
  predicate Recent(run: seq<Label>, l: Label, r: Return, at: nat, lifetime: nat) {
    l in run && l.Finish? && l.refresh.Minted? && l.refresh.value == r.value && at <= r.at < at + lifetime
  }

  lemma ReturnsAreRecent(shortest: nat, run: seq<Label>, r: Return) returns (l: Label, m: Mint)
    requires shortest > 0 && LivesAtLeast(shortest, run) && r in Exec(Initial, run).handed
    ensures m in Exec(Initial, run).mints && MadeBy(run, l, m) && Recent(run, l, r, m.at, l.refresh.lifetime)
  {
    NoExpiredTokenIsReturned(shortest, run, r);
    m :| m in Exec(Initial, run).mints && m.value == r.value && m.at <= r.at < m.expiresAt;
    l := MintsComeFromRefreshes(Initial, run, m);
  }

  /** APNs: in every run no token is handed out 3000 s after its mint. */
  lemma ApnsTokensAreRecent(run: seq<Label>, r: Return)
    requires forall l :: l in run && l.Finish? && l.refresh.Minted? ==> l.refresh.lifetime == ApnsLifetime()
    requires r in Exec(Initial, run).handed
    ensures exists l, m :: m in Exec(Initial, run).mints && MadeBy(run, l, m) && Recent(run, l, r, m.at, 3_000 * SECOND)
  {
    var l, m := ReturnsAreRecent(ApnsLifetime(), run, r);
  }

  predicate FcmRecent(run: seq<Label>, l: Label, announced: Option<nat>, r: Return, m: Mint) {
    var seconds := if announced.Some? then announced.value else 3_600;
    Recent(run, l, r, m.at, Max(1, seconds - 60) * SECOND)
  }

  /**
   * FCM: in every run, whatever lifetimes the refreshes announce, no token is handed out once its announced
   * lifetime less a minute has passed since its mint, or a second when less was announced.
   */
  lemma FcmTokensAreRecent(run: seq<Label>, announced: Label -> Option<nat>, r: Return)
    requires forall l :: l in run && l.Finish? && l.refresh.Minted? ==> l.refresh.lifetime == FcmLifetime(announced(l))
    requires r in Exec(Initial, run).handed
    ensures exists l, m :: m in Exec(Initial, run).mints && MadeBy(run, l, m) && FcmRecent(run, l, announced(l), r, m)
  {
    var l, m := ReturnsAreRecent(SECOND, run, r);
  }

  /**
   * As long as the cached token is fresh, every interleaving shares it: nobody starts a refresh,
   * and every caller that gets a token gets this one.
   */
  lemma {:induction false} FreshTokenIsShared(s: State, run: seq<Label>)
    requires Fresh(s.slot, s.now) && s.holder.None?
    requires Exec(s, run).now < s.slot.value.expiresAt
    ensures Exec(s, run).slot == s.slot && Exec(s, run).mints == s.mints && Exec(s, run).holder.None?
    ensures s.handed <= Exec(s, run).handed
    ensures forall k :: |s.handed| <= k < |Exec(s, run).handed| ==>
      Exec(s, run).handed[k].value == s.slot.value.value
    decreases |run|
  {
    if run != [] {
      ClockAdvances(Step(s, run[0]), run[1..]);
      FreshTokenIsShared(Step(s, run[0]), run[1..]);
    }
  }

  lemma {:induction false} ClockAdvances(s: State, run: seq<Label>)
    ensures s.now <= Exec(s, run).now
    decreases |run|
  {
    if run != [] {
      ClockAdvances(Step(s, run[0]), run[1..]);
    }
  }

  /** A failed or cancelled refresh leaves the slot as it was and frees the lock for the next caller. */
  lemma FailedRefreshLeavesSlot(s: State, c: nat)
    requires s.holder == Some(c)
    ensures Step(s, Finish(RefreshFailed)).slot == Step(s, Cancel(c)).slot == s.slot
    ensures Step(s, Finish(RefreshFailed)).holder.None? && Step(s, Cancel(c)).holder.None?
    ensures Step(s, Finish(RefreshFailed)).mints == Step(s, Cancel(c)).mints == s.mints
  {
  }
}
