/** The consumer loop: many messages share one semaphore; each message still follows the delivery protocol. */
module Fleet {
  import opened Handler
  import opened Protocol

  datatype FleetWorld = FleetWorld(worlds: seq<World>, permits: nat)

  /** `event` happens to message `m`. */
  datatype FleetLabel = FleetLabel(m: nat, event: Label)

  /** A handler task holds its permit from admission to its end, however it ends. */
  predicate Holding(d: Delivery) {
    !d.phase.Queued? && !Done(d)
  }

  predicate Blocked(f: FleetWorld, l: FleetLabel)
    requires l.m < |f.worlds|
  {
    var ds := f.worlds[l.m].deliveries;
    l.event.Act? && l.event.i < |ds| && ds[l.event.i].phase.Queued? && f.permits == 0
  }

  function FleetStep(cfg: Config, msgs: seq<Message>, f: FleetWorld, l: FleetLabel): FleetWorld
    requires |f.worlds| == |msgs|
    ensures |FleetStep(cfg, msgs, f, l).worlds| == |msgs|
  {
    if l.m >= |f.worlds| || Blocked(f, l) then f
    else
      var w := f.worlds[l.m];
      var w' := Step(cfg, msgs[l.m], w, l.event);
      var permits :=
        match l.event
        case Act(i, _) =>
          if i >= |w.deliveries| then f.permits
          else if w.deliveries[i].phase.Queued? then f.permits - 1
          else if !Done(w.deliveries[i]) && Done(w'.deliveries[i]) then f.permits + 1
          else f.permits
        case Crash(i) =>
          if i < |w.deliveries| && Holding(w.deliveries[i]) then f.permits + 1 else f.permits
        case _ => f.permits;
      FleetWorld(f.worlds[l.m := w'], permits)
  }

  function FleetExec(cfg: Config, msgs: seq<Message>, maxConcurrency: nat, run: seq<FleetLabel>): FleetWorld
    ensures |FleetExec(cfg, msgs, maxConcurrency, run).worlds| == |msgs|
  {
    if run == [] then FleetWorld(seq(|msgs|, _ => Initial), maxConcurrency)
    else FleetStep(cfg, msgs, FleetExec(cfg, msgs, maxConcurrency, run[..|run| - 1]), run[|run| - 1])
  }

  // ---- the semaphore

  function HoldingIn(ds: seq<Delivery>): nat {
    if ds == [] then 0 else HoldingIn(ds[..|ds| - 1]) + if Holding(ds[|ds| - 1]) then 1 else 0
  }

  function ActiveHandlers(ws: seq<World>): nat {
    if ws == [] then 0 else ActiveHandlers(ws[..|ws| - 1]) + HoldingIn(ws[|ws| - 1].deliveries)
  }

  lemma {:induction false} HoldingUpdate(ds: seq<Delivery>, i: nat, d: Delivery)
    requires i < |ds|
    ensures HoldingIn(ds[i := d]) == HoldingIn(ds) - (if Holding(ds[i]) then 1 else 0) + (if Holding(d) then 1 else 0)
  {
    var n := |ds| - 1;
    if i == n {
      assert ds[i := d][..n] == ds[..n];
    } else {
      HoldingUpdate(ds[..n], i, d);
      assert ds[i := d][..n] == ds[..n][i := d];
    }
  }

  lemma {:induction false} ActiveUpdate(ws: seq<World>, m: nat, w: World)
    requires m < |ws|
    ensures ActiveHandlers(ws[m := w])
         == ActiveHandlers(ws) - HoldingIn(ws[m].deliveries) + HoldingIn(w.deliveries)
  {
    var n := |ws| - 1;
    if m == n {
      assert ws[m := w][..n] == ws[..n];
    } else {
      ActiveUpdate(ws[..n], m, w);
      assert ws[m := w][..n] == ws[..n][m := w];
    }
  }

  lemma {:induction false} NoneActive(n: nat)
    ensures ActiveHandlers(seq(n, _ => Initial)) == 0
  {
    if n > 0 {
      NoneActive(n - 1);
      assert seq(n, _ => Initial)[..n - 1] == seq(n - 1, _ => Initial);
    }
  }

  lemma DeliveryHoldsNothing(cfg: Config, msg: Message, w: World, l: Label)
    requires l.Deliver? || l.Expire?
    ensures HoldingIn(Step(cfg, msg, w, l).deliveries) == HoldingIn(w.deliveries)
  {
    var w' := Step(cfg, msg, w, l);
    if |w'.deliveries| > |w.deliveries| {
      assert w'.deliveries[..|w.deliveries|] == w.deliveries;
    }
  }

  /** What one label does to the permits a message holds, seen from the one handler that it moves. */
  lemma StepHolding(cfg: Config, msg: Message, w: World, l: Label)
    ensures l.Act? && l.i < |w.deliveries| ==>
      HoldingIn(Step(cfg, msg, w, l).deliveries)
        == HoldingIn(w.deliveries) - (if Holding(w.deliveries[l.i]) then 1 else 0)
           + (if Done(Step(cfg, msg, w, l).deliveries[l.i]) then 0 else 1)
      && (w.deliveries[l.i].phase.Queued? ==> !Done(Step(cfg, msg, w, l).deliveries[l.i]))
      && (Done(w.deliveries[l.i]) ==> Done(Step(cfg, msg, w, l).deliveries[l.i]))
    ensures l.Crash? && l.i < |w.deliveries| ==>
      HoldingIn(Step(cfg, msg, w, l).deliveries)
        == HoldingIn(w.deliveries) - (if Holding(w.deliveries[l.i]) then 1 else 0)
    ensures (l.Act? || l.Crash?) && l.i >= |w.deliveries| ==> Step(cfg, msg, w, l) == w
  {
    hide Screen, JobValid;
    if l.Act? && l.i < |w.deliveries| {
      HoldingUpdate(w.deliveries, l.i, Advance(cfg, msg, w.deliveries[l.i], l.answers));
    } else if l.Crash? && l.i < |w.deliveries| && !Done(w.deliveries[l.i]) {
      HoldingUpdate(w.deliveries, l.i, w.deliveries[l.i].(phase := Crashed(w.deliveries[l.i].phase)));
    }
  }

  lemma StepConservesPermits(cfg: Config, msgs: seq<Message>, f: FleetWorld, l: FleetLabel)
    requires |f.worlds| == |msgs|
    ensures FleetStep(cfg, msgs, f, l).permits + ActiveHandlers(FleetStep(cfg, msgs, f, l).worlds)
         == f.permits + ActiveHandlers(f.worlds)
  {
    hide Advance, HoldingIn, ActiveHandlers;
    if l.m < |f.worlds| && !Blocked(f, l) {
      var w := f.worlds[l.m];
      ActiveUpdate(f.worlds, l.m, Step(cfg, msgs[l.m], w, l.event));
      if l.event.Act? || l.event.Crash? {
        StepHolding(cfg, msgs[l.m], w, l.event);
      } else {
        DeliveryHoldsNothing(cfg, msgs[l.m], w, l.event);
      }
    }
  }

  /** Permits are conserved in every run, so at most max_concurrency handlers are ever active. */
  lemma {:induction false} PermitsAreConserved(cfg: Config, msgs: seq<Message>, maxConcurrency: nat, run: seq<FleetLabel>)
    ensures var f := FleetExec(cfg, msgs, maxConcurrency, run);
      f.permits + ActiveHandlers(f.worlds) == maxConcurrency
  {
    if run == [] {
      NoneActive(|msgs|);
    } else {
      PermitsAreConserved(cfg, msgs, maxConcurrency, run[..|run| - 1]);
      StepConservesPermits(cfg, msgs, FleetExec(cfg, msgs, maxConcurrency, run[..|run| - 1]), run[|run| - 1]);
    }
  }

  // ---- admission

  /** A waiting handler asks for its permit while as many handlers as allowed are at work. */
  predicate AsksInVain(f: FleetWorld, maxConcurrency: nat, l: FleetLabel) {
    && l.m < |f.worlds| && l.event.Act? && l.event.i < |f.worlds[l.m].deliveries|
    && f.worlds[l.m].deliveries[l.event.i].phase.Queued?
    && ActiveHandlers(f.worlds) >= maxConcurrency
  }

  /**
   * After any run, every event takes its full effect on its own message and none on the others, except the
   * admission of a handler while max_concurrency handlers are at work.
   */
  lemma EventsTakeEffect(cfg: Config, msgs: seq<Message>, maxConcurrency: nat, run: seq<FleetLabel>, l: FleetLabel)
    requires l.m < |msgs|
    ensures var f := FleetExec(cfg, msgs, maxConcurrency, run);
      FleetExec(cfg, msgs, maxConcurrency, run + [l]).worlds ==
        if AsksInVain(f, maxConcurrency, l) then f.worlds
        else f.worlds[l.m := Step(cfg, msgs[l.m], f.worlds[l.m], l.event)]
  {
    hide Step, ActiveHandlers;
    PermitsAreConserved(cfg, msgs, maxConcurrency, run);
    assert (run + [l])[..|run|] == run;
  }

  /** So a waiting handler that asks is admitted exactly when fewer than max_concurrency handlers are at work. */
  lemma AdmittedExactly(cfg: Config, msgs: seq<Message>, maxConcurrency: nat, run: seq<FleetLabel>, m: nat, i: nat, a: Answers)
    requires m < |msgs| && i < |FleetExec(cfg, msgs, maxConcurrency, run).worlds[m].deliveries|
    requires FleetExec(cfg, msgs, maxConcurrency, run).worlds[m].deliveries[i].phase.Queued?
    ensures var f := FleetExec(cfg, msgs, maxConcurrency, run);
      var f' := FleetExec(cfg, msgs, maxConcurrency, run + [FleetLabel(m, Act(i, a))]);
      && i < |f'.worlds[m].deliveries|
      && (!f'.worlds[m].deliveries[i].phase.Queued? <==> ActiveHandlers(f.worlds) < maxConcurrency)
  {
    hide ActiveHandlers, FleetExec, Screen;
    EventsTakeEffect(cfg, msgs, maxConcurrency, run, FleetLabel(m, Act(i, a)));
  }

  // ---- every message sees the single-message protocol

  /** The labels of a fleet run that took effect on message m. */
  function Project(cfg: Config, msgs: seq<Message>, maxConcurrency: nat, run: seq<FleetLabel>, m: nat): seq<Label> {
    if run == [] then []
    else
      var before := run[..|run| - 1];
      var l := run[|run| - 1];
      var rest := Project(cfg, msgs, maxConcurrency, before, m);
      if l.m == m && m < |msgs| && !Blocked(FleetExec(cfg, msgs, maxConcurrency, before), l)
      then rest + [l.event] else rest
  }

  /** Contention never creates a behaviour: each message's world is that of a run of the protocol alone. */
  lemma {:induction false} FleetRefinesProtocol(
      cfg: Config, msgs: seq<Message>, maxConcurrency: nat, run: seq<FleetLabel>, m: nat)
    requires m < |msgs|
    ensures FleetExec(cfg, msgs, maxConcurrency, run).worlds[m]
         == Exec(cfg, msgs[m], Project(cfg, msgs, maxConcurrency, run, m))
  {
    if run != [] {
      var before := run[..|run| - 1];
      FleetRefinesProtocol(cfg, msgs, maxConcurrency, before, m);
      ExecAppend(cfg, msgs[m], Project(cfg, msgs, maxConcurrency, before, m), run[|run| - 1].event);
    }
  }
}
