/** The contact token bucket: lazy refill with a cap, in exact arithmetic. Times are seconds. */
module RateLimit {

  function MinR(a: real, b: real): real {
    if a <= b then a else b
  }

  function MaxR(a: real, b: real): real {
    if a >= b then a else b
  }

  datatype Bucket = Bucket(capacity: real, tokens: real, perSecond: real, last: real)

  datatype Take = Granted | Denied(hint: real)

  function NewBucket(perMinute: real, now: real): Bucket {
    var capacity := MaxR(perMinute, 1.0);
    Bucket(capacity, capacity, perMinute / 60.0, now)
  }

  function PerMinute(limit: nat, now: real): Bucket {
    NewBucket((if limit >= 1 then limit else 1) as real, now)
  }

  function Elapsed(since: real, now: real): real {
    if now < since then 0.0 else now - since
  }

  /** The tokens that `seconds` bring at a rate; hidden in proofs that need only its laws. */
  function Refill(seconds: real, perSecond: real): real {
    seconds * perSecond
  }

  /** The tokens a call at time t would find. */
  function Level(b: Bucket, t: real): real {
    MinR(b.tokens + Refill(Elapsed(b.last, t), b.perSecond), b.capacity)
  }

  function Refilled(b: Bucket, now: real): Bucket {
    b.(tokens := Level(b, now), last := now)
  }

  function Hint(b: Bucket): real {
    var missing := MaxR(1.0 - b.tokens, 0.0);
    var seconds := if b.perSecond > 0.0 then missing / b.perSecond else 60.0;
    MinR(MaxR(seconds, 0.05), 60.0)
  }

  function Taken(b: Bucket, now: real): (Bucket, Take) {
    var r := Refilled(b, now);
    if r.tokens >= 1.0 then (r.(tokens := r.tokens - 1.0), Granted) else (r, Denied(Hint(r)))
  }

  // ---- the bucket as the source keeps it

  class TokenBucket {
    const capacity: real
    const perSecond: real
    var tokens: real
    var last: real

    ghost function Model(): Bucket
      reads this
    {
      Bucket(capacity, tokens, perSecond, last)
    }

    constructor (perMinute: real, now: real)
      ensures Model() == NewBucket(perMinute, now)
    {
      capacity := MaxR(perMinute, 1.0);
      tokens := MaxR(perMinute, 1.0);
      perSecond := perMinute / 60.0;
      last := now;
    }

    method TryTake(now: real) returns (result: Take)
      modifies this
      ensures (Model(), result) == Taken(old(Model()), now)
    {
      tokens := MinR(tokens + Refill(Elapsed(last, now), perSecond), capacity);
      last := now;
      if tokens >= 1.0 {
        tokens := tokens - 1.0;
        return Granted;
      }
      var missing := MaxR(1.0 - tokens, 0.0);
      var seconds := 60.0;
      if perSecond > 0.0 {
        seconds := missing / perSecond;
      }
      result := Denied(MinR(MaxR(seconds, 0.05), 60.0));
    }
  }

  // ---- buckets of the service

  /** Every bucket of the service: at least one token and one token a minute, filled between empty and capacity. */
  predicate WellFormed(b: Bucket) {
    b.capacity >= 1.0 && b.perSecond == b.capacity / 60.0 && 0.0 <= b.tokens <= b.capacity
  }

  lemma RefillIsNonNegative(x: real, r: real)
    requires x >= 0.0 && r >= 0.0
    ensures Refill(x, r) >= 0.0
  {
  }

  lemma RefillAdds(x: real, y: real, r: real)
    ensures Refill(x + y, r) == Refill(x, r) + Refill(y, r)
  {
  }

  lemma RefillIsMonotone(b: Bucket, t: real)
    requires WellFormed(b)
    ensures b.tokens <= Level(b, t) <= b.capacity
    ensures Level(b, t) <= b.tokens + Refill(Elapsed(b.last, t), b.perSecond)
  {
    hide Refill;
    RefillIsNonNegative(Elapsed(b.last, t), b.perSecond);
  }

  lemma TakenKeepsWellFormed(b: Bucket, now: real)
    requires WellFormed(b)
    ensures WellFormed(Taken(b, now).0) && Taken(b, now).0.last == now
    ensures Taken(b, now).0.capacity == b.capacity && Taken(b, now).0.perSecond == b.perSecond
  {
    RefillIsMonotone(b, now);
  }

  /** Refilling in between changes no later level. */
  lemma LevelThrough(b: Bucket, t: real, u: real)
    requires WellFormed(b) && b.last <= t <= u
    ensures Level(Refilled(b, t), u) == Level(b, u)
  {
    hide Refill;
    assert u - b.last == (t - b.last) + (u - t);
    RefillAdds(t - b.last, u - t, b.perSecond);
    RefillIsNonNegative(u - t, b.perSecond);
  }

  // ---- runs of calls

  function After(b: Bucket, times: seq<real>): Bucket
    decreases |times|
  {
    if times == [] then b else After(Taken(b, times[0]).0, times[1..])
  }

  function Decisions(b: Bucket, times: seq<real>): (ds: seq<bool>)
    ensures |ds| == |times|
    decreases |times|
  {
    if times == [] then [] else [Taken(b, times[0]).1.Granted?] + Decisions(Taken(b, times[0]).0, times[1..])
  }

  predicate Nondecreasing(start: real, times: seq<real>)
    decreases |times|
  {
    times == [] || (start <= times[0] && Nondecreasing(times[0], times[1..]))
  }

  function End(start: real, times: seq<real>): real
    decreases |times|
  {
    if times == [] then start else End(times[0], times[1..])
  }

  // ---- window bound

  /** The number of calls granted at a time in [s, t]. */
  function GrantsIn(b: Bucket, times: seq<real>, s: real, t: real): nat
    decreases |times|
  {
    if times == [] then 0
    else
      var (next, take) := Taken(b, times[0]);
      (if take.Granted? && s <= times[0] <= t then 1 else 0) + GrantsIn(next, times[1..], s, t)
  }

  lemma {:induction false} NoGrantsAfter(b: Bucket, times: seq<real>, s: real, t: real)
    requires Nondecreasing(b.last, times) && b.last > t
    ensures GrantsIn(b, times, s, t) == 0
    decreases |times|
  {
    if times != [] {
      NoGrantsAfter(Taken(b, times[0]).0, times[1..], s, t);
    }
  }

  /** One call spends its token out of what the bucket holds and will be refilled. */
  lemma TakeSpends(b: Bucket, u: real, t: real)
    requires WellFormed(b) && b.last <= u <= t
    ensures Taken(b, u).0.tokens + Refill(t - u, b.perSecond) + (if Taken(b, u).1.Granted? then 1.0 else 0.0)
         <= b.tokens + Refill(t - b.last, b.perSecond)
  {
    hide Refill;
    assert t - b.last == (u - b.last) + (t - u);
    RefillAdds(u - b.last, t - u, b.perSecond);
    RefillIsMonotone(b, u);
  }

  /** From inside the window: what is granted until t was in the bucket or is refilled until t. */
  lemma {:induction false} GrantsAreTokens(b: Bucket, times: seq<real>, s: real, t: real)
    requires WellFormed(b) && Nondecreasing(b.last, times) && b.last <= t
    ensures GrantsIn(b, times, s, t) as real <= b.tokens + Refill(t - b.last, b.perSecond)
    decreases |times|
  {
    hide Refill, Taken;
    RefillIsNonNegative(t - b.last, b.perSecond);
    if times != [] {
      var u := times[0];
      var next := Taken(b, u).0;
      TakenKeepsWellFormed(b, u);
      if u > t {
        NoGrantsAfter(next, times[1..], s, t);
      } else {
        GrantsAreTokens(next, times[1..], s, t);
        TakeSpends(b, u, t);
      }
    }
  }

  /** A call inside the window spends out of at most one full bucket plus the refill of the window. */
  lemma TakeSpendsCapacity(b: Bucket, u: real, s: real, t: real)
    requires WellFormed(b) && b.last <= u && s <= u <= t
    ensures Taken(b, u).0.tokens + Refill(t - u, b.perSecond) + (if Taken(b, u).1.Granted? then 1.0 else 0.0)
         <= b.capacity + Refill(t - s, b.perSecond)
  {
    hide Refill;
    assert t - s == (u - s) + (t - u);
    RefillAdds(u - s, t - u, b.perSecond);
    RefillIsNonNegative(u - s, b.perSecond);
    RefillIsMonotone(b, u);
  }

  lemma {:induction false} WindowBoundByRefill(b: Bucket, times: seq<real>, s: real, t: real)
    requires WellFormed(b) && Nondecreasing(b.last, times) && s <= t
    ensures GrantsIn(b, times, s, t) as real <= b.capacity + Refill(t - s, b.perSecond)
    decreases |times|
  {
    hide Refill, Taken;
    RefillIsNonNegative(t - s, b.perSecond);
    if times != [] {
      var u := times[0];
      var next := Taken(b, u).0;
      TakenKeepsWellFormed(b, u);
      if u < s {
        WindowBoundByRefill(next, times[1..], s, t);
      } else if u > t {
        NoGrantsAfter(next, times[1..], s, t);
      } else {
        GrantsAreTokens(next, times[1..], s, t);
        TakeSpendsCapacity(b, u, s, t);
      }
    }
  }

  /** In any run of a bucket of the service, at most capacity + (t - s) * rate calls are granted in [s, t]. */
  lemma WindowBound(b: Bucket, times: seq<real>, s: real, t: real)
    requires WellFormed(b) && Nondecreasing(b.last, times) && s <= t
    ensures GrantsIn(b, times, s, t) as real <= b.capacity + (t - s) * b.perSecond
  {
    hide GrantsIn, WellFormed, Nondecreasing;
    WindowBoundByRefill(b, times, s, t);
  }

  // ---- greedy optimality

  /** A choice of granted calls that obeys the same refill law. */
  predicate Admissible(b: Bucket, times: seq<real>, choice: seq<bool>)
    decreases |times|
  {
    |choice| == |times| &&
    (times == [] ||
     (var r := Refilled(b, times[0]);
      && (choice[0] ==> r.tokens >= 1.0)
      && Admissible(if choice[0] then r.(tokens := r.tokens - 1.0) else r, times[1..], choice[1..])))
  }

  function Count(ds: seq<bool>): nat {
    if ds == [] then 0 else (if ds[0] then 1 else 0) + Count(ds[1..])
  }

  lemma {:induction false} BucketIsAdmissible(b: Bucket, times: seq<real>)
    ensures Admissible(b, times, Decisions(b, times))
    decreases |times|
  {
    if times != [] {
      BucketIsAdmissible(Taken(b, times[0]).0, times[1..]);
    }
  }

  /** A rival bucket never holds more than the lead by which it has granted less. */
  lemma {:induction false} RivalIsBehind(b: Bucket, rival: Bucket, lead: nat, times: seq<real>, choice: seq<bool>, n: nat)
    requires rival.capacity == b.capacity && rival.perSecond == b.perSecond && rival.last == b.last
    requires rival.tokens <= b.tokens + lead as real
    requires Admissible(rival, times, choice) && n <= |times|
    ensures Count(choice[..n]) <= Count(Decisions(b, times)[..n]) + lead
    decreases |times|
  {
    hide Refill;
    if n > 0 {
      var ds := Decisions(b, times);
      var r := Refilled(rival, times[0]);
      var rival' := if choice[0] then r.(tokens := r.tokens - 1.0) else r;
      var lead' := lead + (if ds[0] then 1 else 0) - (if choice[0] then 1 else 0);
      RivalIsBehind(Taken(b, times[0]).0, rival', lead', times[1..], choice[1..], n - 1);
      assert choice[..n][1..] == choice[1..][..n - 1];
      assert ds[..n][1..] == ds[1..][..n - 1];
    }
  }

  /** No other way to spend the same refill has granted more calls at any point of any run. */
  lemma GreedyIsOptimal(b: Bucket, times: seq<real>, choice: seq<bool>, n: nat)
    requires Admissible(b, times, choice) && n <= |times|
    ensures Count(choice[..n]) <= Count(Decisions(b, times)[..n])
    ensures Admissible(b, times, Decisions(b, times))
  {
    RivalIsBehind(b, b, 0, times, choice, n);
    BucketIsAdmissible(b, times);
  }

  // ---- the window law, without a bucket

  /** From call i to call j the choice grants no more than a full bucket and what flows in meanwhile. */
  predicate WindowHolds(b: Bucket, times: seq<real>, choice: seq<bool>, i: nat, j: nat)
    requires i <= j < |times| == |choice|
  {
    Count(choice[i..j + 1]) as real <= b.capacity + (times[j] - times[i]) * b.perSecond
  }

  predicate WindowLaw(b: Bucket, times: seq<real>, choice: seq<bool>)
    requires |choice| == |times|
  {
    forall i, j {:trigger WindowHolds(b, times, choice, i, j)} ::
      0 <= i <= j < |times| ==> WindowHolds(b, times, choice, i, j)
  }

  /** Up to call j the choice grants no more than what the bucket holds and what flows in. */
  predicate StartHolds(b: Bucket, times: seq<real>, choice: seq<bool>, j: nat)
    requires j < |times| == |choice|
  {
    Count(choice[..j + 1]) as real <= b.tokens + (times[j] - b.last) * b.perSecond
  }

  predicate StartLaw(b: Bucket, times: seq<real>, choice: seq<bool>)
    requires |choice| == |times|
  {
    forall j {:trigger StartHolds(b, times, choice, j)} :: 0 <= j < |times| ==> StartHolds(b, times, choice, j)
  }

  function Spent(b: Bucket, now: real, granted: bool): Bucket {
    var r := Refilled(b, now);
    if granted then r.(tokens := r.tokens - 1.0) else r
  }

  /** What a bucket may still grant after a call: both limits of the call before, shifted. */
  lemma StartAfter(b: Bucket, times: seq<real>, choice: seq<bool>, j: nat)
    requires 0 < j < |times| == |choice| && b.last <= times[0]
    ensures StartHolds(Spent(b, times[0], choice[0]), times[1..], choice[1..], j - 1)
       <==> StartHolds(b, times, choice, j) && WindowHolds(b, times, choice, 0, j)
  {
    assert choice[..j + 1][1..] == choice[1..][..j];
    assert choice[0..j + 1] == choice[..j + 1];
    Distributes(times[j] - times[0], times[0] - b.last, b.perSecond);
  }

  lemma Distributes(x: real, y: real, r: real)
    ensures (x + y) * r == x * r + y * r && Refill(y, r) == y * r
  {
  }

  lemma WindowAfter(b: Bucket, times: seq<real>, choice: seq<bool>, i: nat, j: nat)
    requires 0 < i <= j < |times| == |choice|
    ensures WindowHolds(Spent(b, times[0], choice[0]), times[1..], choice[1..], i - 1, j - 1)
       <==> WindowHolds(b, times, choice, i, j)
  {
    assert choice[1..][i - 1..j] == choice[i..j + 1];
  }

  lemma FindsAToken(b: Bucket, now: real)
    requires b.capacity >= 1.0 && b.last <= now
    ensures Refilled(b, now).tokens >= 1.0 <==> b.tokens + (now - b.last) * b.perSecond >= 1.0
  {
    Distributes(0.0, now - b.last, b.perSecond);
    hide Refill;
    assert Elapsed(b.last, now) == now - b.last;
  }

  lemma FirstCall(b: Bucket, times: seq<real>, choice: seq<bool>)
    requires b.capacity >= 1.0 && b.tokens >= 0.0 && b.perSecond >= 0.0
    requires times != [] && |choice| == |times| && b.last <= times[0]
    ensures StartHolds(b, times, choice, 0) <==> (choice[0] ==> Refilled(b, times[0]).tokens >= 1.0)
    ensures WindowHolds(b, times, choice, 0, 0)
  {
    FindsAToken(b, times[0]);
    hide Refilled;
    assert choice[..1] == choice[0..1] == [choice[0]] && [choice[0]][1..] == [];
    assert Count([choice[0]]) == if choice[0] then 1 else 0;
    assert (times[0] - times[0]) * b.perSecond == 0.0;
    RefillIsNonNegative(times[0] - b.last, b.perSecond);
    Distributes(0.0, times[0] - b.last, b.perSecond);
  }

  lemma LawsAfter(b: Bucket, times: seq<real>, choice: seq<bool>)
    requires times != [] && |choice| == |times| && b.last <= times[0]
    requires StartHolds(b, times, choice, 0) && WindowHolds(b, times, choice, 0, 0)
    ensures var next := Spent(b, times[0], choice[0]);
      StartLaw(next, times[1..], choice[1..]) && WindowLaw(next, times[1..], choice[1..])
      <==> StartLaw(b, times, choice) && WindowLaw(b, times, choice)
  {
    hide StartHolds, WindowHolds, Spent;
    var next := Spent(b, times[0], choice[0]);
    if StartLaw(next, times[1..], choice[1..]) && WindowLaw(next, times[1..], choice[1..]) {
      forall j | 0 < j < |times|
        ensures StartHolds(b, times, choice, j) && WindowHolds(b, times, choice, 0, j)
      {
        assert StartHolds(next, times[1..], choice[1..], j - 1);
        StartAfter(b, times, choice, j);
      }
      forall i, j | 0 < i <= j < |times|
        ensures WindowHolds(b, times, choice, i, j)
      {
        assert WindowHolds(next, times[1..], choice[1..], i - 1, j - 1);
        WindowAfter(b, times, choice, i, j);
      }
    }
    if StartLaw(b, times, choice) && WindowLaw(b, times, choice) {
      forall j | 0 <= j < |times| - 1
        ensures StartHolds(next, times[1..], choice[1..], j)
      {
        assert StartHolds(b, times, choice, j + 1) && WindowHolds(b, times, choice, 0, j + 1);
        StartAfter(b, times, choice, j + 1);
      }
      forall i, j | 0 <= i <= j < |times| - 1
        ensures WindowHolds(next, times[1..], choice[1..], i, j)
      {
        assert WindowHolds(b, times, choice, i + 1, j + 1);
        WindowAfter(b, times, choice, i + 1, j + 1);
      }
    }
  }

  lemma SpentKeepsWellFormed(b: Bucket, now: real, granted: bool)
    requires WellFormed(b) && (granted ==> Refilled(b, now).tokens >= 1.0)
    ensures WellFormed(Spent(b, now, granted)) && Spent(b, now, granted).last == now
  {
    RefillIsMonotone(b, now);
  }

  /** The refill law is the window law: what a bucket could grant is told by the times of the calls alone. */
  lemma {:induction false} AdmissibleExactly(b: Bucket, times: seq<real>, choice: seq<bool>)
    requires WellFormed(b) && Nondecreasing(b.last, times) && |choice| == |times|
    ensures Admissible(b, times, choice) <==> StartLaw(b, times, choice) && WindowLaw(b, times, choice)
    decreases |times|
  {
    if times != [] {
      hide WindowHolds, StartHolds, Refilled;
      FirstCall(b, times, choice);
      assert StartLaw(b, times, choice) ==> StartHolds(b, times, choice, 0);
      if choice[0] ==> Refilled(b, times[0]).tokens >= 1.0 {
        SpentKeepsWellFormed(b, times[0], choice[0]);
        AdmissibleExactly(Spent(b, times[0], choice[0]), times[1..], choice[1..]);
        LawsAfter(b, times, choice);
      }
    }
  }

  /**
   * From a full bucket: any choice at all whose grants keep within capacity plus inflow from every call to every
   * later one has granted no more, at any point of any run; and the bucket's own grants are such a choice.
   */
  lemma GreedyBeatsTheWindowLaw(b: Bucket, times: seq<real>, choice: seq<bool>, n: nat)
    requires WellFormed(b) && b.tokens == b.capacity && Nondecreasing(b.last, times)
    requires |choice| == |times| && WindowLaw(b, times, choice) && n <= |times|
    ensures Count(choice[..n]) <= Count(Decisions(b, times)[..n])
    ensures WindowLaw(b, times, Decisions(b, times))
  {
    hide WindowHolds, StartHolds;
    FullBucketStarts(b, times, choice);
    AdmissibleExactly(b, times, choice);
    GreedyIsOptimal(b, times, choice, n);
    AdmissibleExactly(b, times, Decisions(b, times));
  }

  lemma {:induction false} StartIsEarliest(start: real, times: seq<real>, j: nat)
    requires Nondecreasing(start, times) && j < |times|
    ensures start <= times[j] && times[0] <= times[j]
    decreases |times|
  {
    if j > 0 {
      StartIsEarliest(times[0], times[1..], j - 1);
    }
  }

  lemma FullBucketStarts(b: Bucket, times: seq<real>, choice: seq<bool>)
    requires WellFormed(b) && b.tokens == b.capacity && Nondecreasing(b.last, times)
    requires |choice| == |times| && WindowLaw(b, times, choice)
    ensures StartLaw(b, times, choice)
  {
    forall j | 0 <= j < |times|
      ensures StartHolds(b, times, choice, j)
    {
      assert WindowHolds(b, times, choice, 0, j);
      assert choice[0..j + 1] == choice[..j + 1];
      StartIsEarliest(b.last, times, j);
      ProductOrder(times[j] - b.last, times[j] - times[0], b.perSecond);
    }
  }

  lemma {:induction false} CountAppend(ds: seq<bool>, d: bool)
    ensures Count(ds + [d]) == Count(ds) + if d then 1 else 0
  {
    if ds == [] {
      assert [] + [d] == [d] && [d][1..] == [];
    } else {
      assert (ds + [d])[1..] == ds[1..] + [d];
      CountAppend(ds[1..], d);
    }
  }

  lemma {:induction false} DecisionsOfPrefix(b: Bucket, times: seq<real>, n: nat)
    requires n <= |times|
    ensures Decisions(b, times[..n]) == Decisions(b, times)[..n]
    decreases n
  {
    hide Taken;
    if n > 0 {
      var next := Taken(b, times[0]).0;
      DecisionsOfPrefix(next, times[1..], n - 1);
      assert times[..n][1..] == times[1..][..n - 1];
      assert Decisions(b, times)[..n] == [Decisions(b, times)[0]] + Decisions(next, times[1..])[..n - 1];
    }
  }

  lemma {:induction false} PrefixInOrder(start: real, times: seq<real>, n: nat)
    requires Nondecreasing(start, times) && n <= |times|
    ensures Nondecreasing(start, times[..n])
    decreases n
  {
    if n > 0 {
      PrefixInOrder(times[0], times[1..], n - 1);
      assert times[..n][1..] == times[1..][..n - 1];
    }
  }

  /** One more grant at call k would keep the window from call i within its bound. */
  predicate HasRoom(b: Bucket, times: seq<real>, choice: seq<bool>, i: nat, k: nat)
    requires i <= k < |times| == |choice|
  {
    (Count(choice[i..k]) + 1) as real <= b.capacity + (times[k] - times[i]) * b.perSecond
  }

  lemma GrantedHasRoom(b: Bucket, times: seq<real>, choice: seq<bool>, i: nat, k: nat)
    requires i <= k < |times| == |choice| && choice[k]
    ensures HasRoom(b, times, choice, i, k) <==> WindowHolds(b, times, choice, i, k)
  {
    assert choice[i..k + 1] == choice[i..k] + [true];
    CountAppend(choice[i..k], true);
  }

  lemma SameWindow(b: Bucket, times: seq<real>, choice: seq<bool>, times': seq<real>, choice': seq<bool>, i: nat, j: nat)
    requires i <= j < |times| == |choice| && j < |times'| == |choice'|
    requires times[i] == times'[i] && times[j] == times'[j]
    ensures choice[i..j + 1] == choice'[i..j + 1] ==>
      (WindowHolds(b, times, choice, i, j) <==> WindowHolds(b, times', choice', i, j))
    ensures choice[i..j] == choice'[i..j] ==> (HasRoom(b, times, choice, i, j) <==> HasRoom(b, times', choice', i, j))
  {
  }

  /** The decisions before call k, and a grant at call k, keep the window law when there is room. */
  lemma RoomKeepsLaw(b: Bucket, times: seq<real>, ds: seq<bool>, k: nat)
    requires k < |times| == |ds| && WindowLaw(b, times, ds)
    requires forall i {:trigger HasRoom(b, times, ds, i, k)} :: 0 <= i <= k ==> HasRoom(b, times, ds, i, k)
    ensures WindowLaw(b, times[..k + 1], ds[..k] + [true])
  {
    hide WindowHolds, HasRoom;
    var early, choice := times[..k + 1], ds[..k] + [true];
    forall i, j | 0 <= i <= j <= k
      ensures WindowHolds(b, early, choice, i, j)
    {
      SameWindow(b, times, ds, early, choice, i, j);
      if j < k {
        assert choice[i..j + 1] == ds[i..j + 1];
        assert WindowHolds(b, times, ds, i, j);
      } else {
        assert choice[i..k] == ds[i..k];
        assert HasRoom(b, times, ds, i, k);
        GrantedHasRoom(b, early, choice, i, k);
      }
    }
  }

  /** A call to a bucket that was full at the start is granted exactly when every window that ends with it has room. */
  lemma GrantedExactly(b: Bucket, times: seq<real>, k: nat)
    requires WellFormed(b) && b.tokens == b.capacity && Nondecreasing(b.last, times) && k < |times|
    ensures Decisions(b, times)[k] <==>
      forall i {:trigger HasRoom(b, times, Decisions(b, times), i, k)} ::
        0 <= i <= k ==> HasRoom(b, times, Decisions(b, times), i, k)
  {
    hide WindowHolds, HasRoom, Taken, Nondecreasing;
    var ds := Decisions(b, times);
    BucketKeepsLaw(b, times);
    if ds[k] {
      forall i | 0 <= i <= k
        ensures HasRoom(b, times, ds, i, k)
      {
        assert WindowHolds(b, times, ds, i, k);
        GrantedHasRoom(b, times, ds, i, k);
      }
    }
    if forall i {:trigger HasRoom(b, times, ds, i, k)} :: 0 <= i <= k ==> HasRoom(b, times, ds, i, k) {
      var early, choice := times[..k + 1], ds[..k] + [true];
      RoomKeepsLaw(b, times, ds, k);
      PrefixInOrder(b.last, times, k + 1);
      GreedyBeatsTheWindowLaw(b, early, choice, k + 1);
      DecisionsOfPrefix(b, times, k + 1);
      CountAppend(ds[..k], true);
      CountAppend(ds[..k], ds[k]);
      assert choice[..k + 1] == choice && ds[..k + 1] == ds[..k] + [ds[k]] == Decisions(b, early)[..k + 1];
    }
  }

  lemma BucketKeepsLaw(b: Bucket, times: seq<real>)
    requires WellFormed(b) && Nondecreasing(b.last, times)
    ensures WindowLaw(b, times, Decisions(b, times))
  {
    BucketIsAdmissible(b, times);
    AdmissibleExactly(b, times, Decisions(b, times));
  }

  function AtOnce(v: real, n: nat): seq<real> {
    seq(n, _ => v)
  }

  lemma {:induction false} TokensAreGranted(b: Bucket, v: real, n: nat)
    requires WellFormed(b) && Level(b, v) >= n as real
    ensures forall k :: 0 <= k < n ==> Decisions(b, AtOnce(v, n))[k]
    decreases n
  {
    if n > 0 {
      var next := Taken(b, v).0;
      TakenKeepsWellFormed(b, v);
      assert AtOnce(v, n)[1..] == AtOnce(v, n - 1);
      assert Level(next, v) == next.tokens by {
        assert Refill(0.0, b.perSecond) == 0.0;
      }
      TokensAreGranted(next, v, n - 1);
    }
  }

  /** After a minute without calls a whole burst is granted at once, whatever the bucket held. */
  lemma IdleMinuteRestoresTheBurst(b: Bucket, v: real, n: nat)
    requires WellFormed(b) && v >= b.last + 60.0 && n as real <= b.capacity
    ensures forall k :: 0 <= k < n ==> Decisions(b, AtOnce(v, n))[k]
  {
    ProductOrder(v - b.last, 60.0, b.perSecond);
    assert Refill(Elapsed(b.last, v), b.perSecond) >= b.capacity;
    TokensAreGranted(b, v, n);
  }

  // ---- denied calls are invisible

  function Filter<T>(xs: seq<T>, keep: seq<bool>): seq<T>
    requires |keep| == |xs|
  {
    if xs == [] then [] else (if keep[0] then [xs[0]] else []) + Filter(xs[1..], keep[1..])
  }

  /** `stale` is what `b` was before some denied calls refreshed it. */
  predicate RefreshedFrom(b: Bucket, stale: Bucket) {
    && b.capacity == stale.capacity && b.perSecond == stale.perSecond
    && stale.last <= b.last && b.tokens == Level(stale, b.last)
  }

  predicate ErasesOnlyDenied(b: Bucket, times: seq<real>, keep: seq<bool>)
    requires |keep| == |times|
  {
    forall k :: 0 <= k < |times| && !keep[k] ==> !Decisions(b, times)[k]
  }

  /** The refreshed and the stale bucket answer the next call alike, and a denial keeps their relation. */
  lemma TakenFromStale(b: Bucket, stale: Bucket, u: real)
    requires WellFormed(b) && WellFormed(stale) && RefreshedFrom(b, stale) && b.last <= u
    ensures Taken(stale, u) == Taken(b, u)
    ensures !Taken(b, u).1.Granted? ==> RefreshedFrom(Taken(b, u).0, stale)
  {
    assert Refilled(stale, b.last) == b;
    hide Level;
    LevelThrough(stale, b.last, u);
  }

  lemma ErasesInTail(b: Bucket, times: seq<real>, keep: seq<bool>)
    requires times != [] && |keep| == |times| && ErasesOnlyDenied(b, times, keep)
    ensures ErasesOnlyDenied(Taken(b, times[0]).0, times[1..], keep[1..])
    ensures keep[0] || !Taken(b, times[0]).1.Granted?
  {
    hide Taken;
    var ds := Decisions(b, times);
    assert ds[1..] == Decisions(Taken(b, times[0]).0, times[1..]);
    assert forall k :: 0 <= k < |times| - 1 ==> ds[1..][k] == ds[k + 1] && keep[1..][k] == keep[k + 1];
    assert keep[0] || !ds[0];
  }

  lemma FreshIsStale(b: Bucket)
    requires WellFormed(b)
    ensures RefreshedFrom(b, b)
  {
  }

  lemma {:induction false} ErasureFromStale(b: Bucket, stale: Bucket, times: seq<real>, keep: seq<bool>)
    requires WellFormed(b) && WellFormed(stale) && RefreshedFrom(b, stale)
    requires Nondecreasing(b.last, times) && |keep| == |times| && ErasesOnlyDenied(b, times, keep)
    ensures Decisions(stale, Filter(times, keep)) == Filter(Decisions(b, times), keep)
    ensures RefreshedFrom(After(b, times), After(stale, Filter(times, keep)))
    ensures WellFormed(After(stale, Filter(times, keep))) && After(b, times).last == End(b.last, times)
    decreases |times|
  {
    hide Taken, WellFormed, RefreshedFrom, ErasesOnlyDenied;
    if times != [] {
      var u := times[0];
      var next := Taken(b, u).0;
      TakenFromStale(b, stale, u);
      TakenKeepsWellFormed(b, u);
      ErasesInTail(b, times, keep);
      if keep[0] {
        FreshIsStale(next);
        ErasureFromStale(next, next, times[1..], keep[1..]);
        var rest := Filter(times[1..], keep[1..]);
        assert Filter(times, keep) == [u] + rest && ([u] + rest)[1..] == rest;
      } else {
        ErasureFromStale(next, stale, times[1..], keep[1..]);
        assert Filter(times, keep) == Filter(times[1..], keep[1..]);
      }
    }
  }

  /** Erasing any denied calls changes no other decision and no level from then on. */
  lemma DeniedCallsAreInvisible(b: Bucket, times: seq<real>, keep: seq<bool>, t: real)
    requires WellFormed(b) && Nondecreasing(b.last, times) && |keep| == |times|
    requires ErasesOnlyDenied(b, times, keep) && t >= End(b.last, times)
    ensures Decisions(b, Filter(times, keep)) == Filter(Decisions(b, times), keep)
    ensures Level(After(b, Filter(times, keep)), t) == Level(After(b, times), t)
  {
    ErasureFromStale(b, b, times, keep);
    var kept := After(b, Filter(times, keep));
    assert Refilled(kept, After(b, times).last) == After(b, times);
    LevelThrough(kept, After(b, times).last, t);
  }

  /** So the level is that of a reference bucket that only ever sees the granted calls. */
  lemma LevelDependsOnGrantsOnly(b: Bucket, times: seq<real>, t: real)
    requires WellFormed(b) && Nondecreasing(b.last, times) && t >= End(b.last, times)
    ensures Level(After(b, times), t) == Level(After(b, Filter(times, Decisions(b, times))), t)
  {
    DeniedCallsAreInvisible(b, times, Decisions(b, times), t);
  }

  // ---- the retry hint

  lemma Quotient(x: real, m: real, r: real)
    requires r > 0.0
    ensures x >= m / r <==> x * r >= m
  {
    var q := m / r;
    assert q * r == m;
    ProductOrder(x, q, r);
  }

  lemma ProductOrder(x: real, y: real, r: real)
    requires r > 0.0
    ensures x >= y <==> x * r >= y * r
  {
  }

  /** The hint of a denial is exactly the missing tokens over the rate, at least 0.05 s; the 60 s clamp never cuts it. */
  lemma HintIsTheWait(b: Bucket, u: real)
    requires WellFormed(b) && Taken(b, u).1.Denied?
    ensures Taken(b, u).1.hint == MaxR((1.0 - Level(b, u)) / b.perSecond, 0.05)
  {
    RefillIsMonotone(b, u);
    Quotient(60.0, 1.0 - Level(b, u), b.perSecond);
  }

  /**
   * After a denial at u, and any denied calls since, a call at v is granted if it respects the hint;
   * when the hint exceeds its floor, exactly if.
   */
  lemma HintIsSufficientAndTight(b: Bucket, u: real, between: seq<real>, v: real)
    requires WellFormed(b) && b.last <= u && Taken(b, u).1.Denied?
    requires var b' := Taken(b, u).0;
      && Nondecreasing(u, between) && End(u, between) <= v
      && forall k :: 0 <= k < |between| ==> !Decisions(b', between)[k]
    ensures var hint := Taken(b, u).1.hint;
      var granted := Taken(After(Taken(b, u).0, between), v).1.Granted?;
      && (v >= u + hint ==> granted)
      && (hint > 0.05 ==> (granted <==> v >= u + hint))
  {
    var b' := Taken(b, u).0;
    TakenKeepsWellFormed(b, u);
    DenialsLeaveLevel(b', between, v);
    HintIsTheWait(b, u);
    WaitIsExact(b', v);
    assert b' == Refilled(b, u);
  }

  lemma DenialsLeaveLevel(b: Bucket, between: seq<real>, v: real)
    requires WellFormed(b) && Nondecreasing(b.last, between) && End(b.last, between) <= v
    requires forall k :: 0 <= k < |between| ==> !Decisions(b, between)[k]
    ensures Level(After(b, between), v) == Level(b, v) && b.last <= v
  {
    NoneKept(between);
    DeniedCallsAreInvisible(b, between, Nothing(|between|), v);
    EndIsLater(b.last, between);
  }

  lemma WaitIsExact(b: Bucket, v: real)
    requires WellFormed(b) && b.last <= v && b.tokens < 1.0
    ensures Level(b, v) >= 1.0 <==> v >= b.last + (1.0 - b.tokens) / b.perSecond
  {
    Quotient(v - b.last, 1.0 - b.tokens, b.perSecond);
  }

  function Nothing(n: nat): seq<bool> {
    seq(n, _ => false)
  }

  lemma {:induction false} NoneKept(times: seq<real>)
    ensures Filter(times, Nothing(|times|)) == []
  {
    if times != [] {
      NoneKept(times[1..]);
      assert Nothing(|times|)[1..] == Nothing(|times| - 1);
    }
  }

  lemma {:induction false} EndIsLater(start: real, times: seq<real>)
    requires Nondecreasing(start, times)
    ensures start <= End(start, times)
    decreases |times|
  {
    if times != [] {
      EndIsLater(times[0], times[1..]);
    }
  }

  /** The configured limit as the service sees it: at least one call, burst `limit`, `limit` a minute. */
  lemma ServiceBuckets(limit: nat, now: real)
    ensures WellFormed(PerMinute(limit, now))
    ensures PerMinute(limit, now).capacity == PerMinute(limit, now).tokens == (if limit >= 1 then limit else 1) as real
    ensures PerMinute(limit, now).last == now
  {
  }
}
