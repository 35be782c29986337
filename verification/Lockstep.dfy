/**
 Throttling under lockstep. The hypotheses are predicates on single steps; a theorem holds of every
 run all of whose steps meet them.
 */
module Lockstep {
  import opened MachineInts
  import opened Regulator
  import opened Conservation
  import opened Punctuality
  import TickCounter

  /** Throttle interrupts are delivered before the core starts its next callback. */
  ghost predicate Prompt(cfg: Config, s: State, a: Action, c: nat)
    requires cfg.Valid() && s.Shape(cfg) && Enabled(cfg, s, a)
  {
    a.Swap? && cfg.In(a.core, c) ==> !s.cores[a.core].ipi
  }

  function Tick(k: Core): nat {
    if k.pc.Swapped? then k.local + 1 else k.local
  }

  /** Some core of the cluster has entered a regulation tick that some core has not finished. */
  ghost predicate MidRegulation(cfg: Config, s: State, c: nat)
    requires cfg.Valid() && s.Shape(cfg)
  {
    exists i, j :: cfg.In(i, c) && cfg.In(j, c) && IsRegulation(cfg, Tick(s.cores[i]))
      && (Tick(s.cores[j]) < Tick(s.cores[i]) || !s.cores[j].pc.Idle?)
  }

  /** The receiver does not throttle in the middle of a regulation tick. */
  ghost predicate GpuOutside(cfg: Config, s: State, a: Action, c: nat)
    requires cfg.Valid() && s.Shape(cfg) && Enabled(cfg, s, a)
  {
    a.GpuCheck? && a.cluster == c ==> !MidRegulation(cfg, s, c)
  }

  ghost predicate AllStopped(cfg: Config, s: State, c: nat)
    requires s.Shape(cfg)
  {
    forall i :: cfg.In(i, c) ==> s.cores[i].Stopped()
  }

  ghost predicate NoneStopped(cfg: Config, s: State, c: nat)
    requires s.Shape(cfg)
  {
    forall i :: cfg.In(i, c) ==> !s.cores[i].Stopped()
  }

  predicate AtTick(k: Core, K: nat) {
    || (k.local == K && !k.pc.Swapped?)
    || (k.local + 1 == K && (k.pc.Idle? || k.pc.Swapped?))
  }

  /** Tick `K` is the one the cluster is in: cores have entered it or have finished tick K - 1. */
  ghost predicate Together(cfg: Config, s: State, c: nat, K: nat)
    requires s.Shape(cfg)
  {
    && (K == 0 || exists i :: cfg.In(i, c) && Tick(s.cores[i]) == K)
    && forall i :: cfg.In(i, c) ==> AtTick(s.cores[i], K)
  }

  ghost predicate Finished(cfg: Config, s: State, c: nat, K: nat)
    requires s.Shape(cfg)
  {
    forall i :: cfg.In(i, c) ==> s.cores[i].local == K && s.cores[i].pc.Idle?
  }

  /** In the middle of regulation tick `K`: nobody charges, who has entered has no interrupt
      pending, and who has finished is running again. */
  ghost predicate Reopening(cfg: Config, s: State, c: nat, K: nat)
    requires s.Shape(cfg)
  {
    forall i :: cfg.In(i, c) ==>
      && (Tick(s.cores[i]) == K ==> !s.cores[i].ipi && !s.cores[i].pc.Charged?)
      && (s.cores[i].local == K && s.cores[i].pc.Idle? ==> !s.cores[i].throttled)
  }

  ghost predicate Uniform(cfg: Config, s: State, c: nat, K: nat)
    requires cfg.Valid() && s.Shape(cfg)
  {
    && Together(cfg, s, c, K)
    && if IsRegulation(cfg, K) && !Finished(cfg, s, c, K)
       then Reopening(cfg, s, c, K)
       else AllStopped(cfg, s, c) || NoneStopped(cfg, s, c)
  }

  /** The tick after the step. */
  ghost function NextTick(cfg: Config, s: State, a: Action, c: nat, K: nat): nat
    requires s.Shape(cfg) && cfg.Valid() && Enabled(cfg, s, a)
  {
    if a.Swap? && cfg.In(a.core, c) && s.cores[a.core].local == K then K + 1 else K
  }

  lemma TogetherStep(cfg: Config, s: State, a: Action, c: nat, K: nat)
    requires cfg.Valid() && s.Shape(cfg) && Enabled(cfg, s, a)
    requires Together(cfg, s, c, K) && InStep(cfg, s, a, c)
    ensures Together(cfg, Apply(cfg, s, a), c, NextTick(cfg, s, a, c, K))
    ensures NextTick(cfg, s, a, c, K) == K + 1 ==> Finished(cfg, s, c, K)
  {
    var t, L := Apply(cfg, s, a), NextTick(cfg, s, a, c, K);
    if a.Swap? && cfg.In(a.core, c) {
      assert Tick(t.cores[a.core]) == s.cores[a.core].local + 1;
    } else if K > 0 {
      var i :| cfg.In(i, c) && Tick(s.cores[i]) == K;
      assert Tick(t.cores[i]) == K;
    }
    forall i | cfg.In(i, c)
      ensures AtTick(t.cores[i], L)
    {
      CoreTogether(cfg, s, a, c, K, i);
    }
  }

  lemma CoreTogether(cfg: Config, s: State, a: Action, c: nat, K: nat, i: nat)
    requires cfg.Valid() && s.Shape(cfg) && Enabled(cfg, s, a)
    requires Together(cfg, s, c, K) && InStep(cfg, s, a, c) && cfg.In(i, c)
    ensures AtTick(Apply(cfg, s, a).cores[i], NextTick(cfg, s, a, c, K))
  {
    assert AtTick(s.cores[i], K);
  }

  /** There is a regulation tick at all if and only if a period has at least two ticks. */
  lemma RegulationExistsIff(cfg: Config)
    requires cfg.interval >= 1
    ensures (exists K: nat :: IsRegulation(cfg, K)) <==> cfg.interval >= 2
  {
    if cfg.interval >= 2 {
      assert IsRegulation(cfg, 1);
    }
  }

  lemma NotTwoRegulations(cfg: Config, K: nat)
    requires cfg.interval >= 2 && IsRegulation(cfg, K)
    ensures !IsRegulation(cfg, K + 1)
    ensures K > 0 && !IsRegulation(cfg, K - 1)
  {
    var M, q := cfg.interval, K / cfg.interval;
    assert K == q * M + 1;
    DivUnique(K - 1, M, q, 0);
    if M == 2 {
      DivUnique(K + 1, M, q + 1, 0);
    } else {
      DivUnique(K + 1, M, q, 2);
    }
  }

  lemma ReopeningStep(cfg: Config, s: State, a: Action, c: nat, K: nat)
    requires cfg.Valid() && s.Shape(cfg) && Enabled(cfg, s, a)
    requires Together(cfg, s, c, K) && Together(cfg, Apply(cfg, s, a), c, K)
    requires Reopening(cfg, s, c, K) && IsRegulation(cfg, K)
    requires Prompt(cfg, s, a, c) && !(a.GpuCheck? && a.cluster == c)
    ensures Reopening(cfg, Apply(cfg, s, a), c, K)
  {
    if a.Check? {
      assert !cfg.In(a.core, c);
    }
  }

  /** Uniform throttling survives every step that is not part of a regulation body. */
  lemma SteadyStep(cfg: Config, s: State, a: Action, c: nat)
    requires cfg.Valid() && s.Shape(cfg) && Enabled(cfg, s, a)
    requires AllStopped(cfg, s, c) || NoneStopped(cfg, s, c)
    requires !(a.Regulate? && cfg.In(a.core, c))
    ensures AllStopped(cfg, Apply(cfg, s, a), c) || NoneStopped(cfg, Apply(cfg, s, a), c)
    ensures !(a.Check? && cfg.In(a.core, c)) && !(a.GpuCheck? && a.cluster == c) ==>
      (AllStopped(cfg, s, c) ==> AllStopped(cfg, Apply(cfg, s, a), c))
      && (NoneStopped(cfg, s, c) ==> NoneStopped(cfg, Apply(cfg, s, a), c))
  {
    var t := Apply(cfg, s, a);
    match a
    case Deliver(i) => assert forall j :: cfg.In(j, c) ==> s.cores[j].Stopped() == t.cores[j].Stopped();
    case Regulate(i) => assert forall j :: cfg.In(j, c) ==> s.cores[j] == t.cores[j];
    case _ =>
  }

  lemma UniformStep(cfg: Config, s: State, a: Action, c: nat, K: nat)
    requires cfg.Valid() && cfg.interval >= 2 && s.Shape(cfg) && Enabled(cfg, s, a)
    requires Uniform(cfg, s, c, K)
    requires InStep(cfg, s, a, c) && Prompt(cfg, s, a, c) && GpuOutside(cfg, s, a, c)
    ensures Uniform(cfg, Apply(cfg, s, a), c, NextTick(cfg, s, a, c, K))
  {
    var t, L := Apply(cfg, s, a), NextTick(cfg, s, a, c, K);
    TogetherStep(cfg, s, a, c, K);
    if IsRegulation(cfg, K) {
      NotTwoRegulations(cfg, K);
      if a.GpuCheck? && a.cluster == c {
        MidRegulationEnds(cfg, s, c, K);
      }
    }
    if IsRegulation(cfg, K) && !Finished(cfg, s, c, K) {
      ReopeningStep(cfg, s, a, c, K);
    } else if L == K + 1 && IsRegulation(cfg, L) {
      EntersReopening(cfg, s, a, c, K);
    } else {
      SteadyStep(cfg, s, a, c);
      if IsRegulation(cfg, K) && L == K {
        StaysFinished(cfg, s, a, c, K);
      }
    }
  }

  lemma StaysFinished(cfg: Config, s: State, a: Action, c: nat, K: nat)
    requires cfg.Valid() && s.Shape(cfg) && Enabled(cfg, s, a)
    requires Finished(cfg, s, c, K) && NextTick(cfg, s, a, c, K) == K
    ensures Finished(cfg, Apply(cfg, s, a), c, K)
  {
  }

  lemma EntersReopening(cfg: Config, s: State, a: Action, c: nat, K: nat)
    requires cfg.Valid() && s.Shape(cfg) && Enabled(cfg, s, a)
    requires Finished(cfg, s, c, K) && NextTick(cfg, s, a, c, K) == K + 1 && Prompt(cfg, s, a, c)
    ensures Reopening(cfg, Apply(cfg, s, a), c, K + 1)
  {
  }

  /** Outside the middle of a regulation tick, the tick being over means everybody finished it. */
  lemma MidRegulationEnds(cfg: Config, s: State, c: nat, K: nat)
    requires cfg.Valid() && s.Shape(cfg) && Together(cfg, s, c, K) && K > 0
    requires IsRegulation(cfg, K) && !MidRegulation(cfg, s, c)
    ensures Finished(cfg, s, c, K)
  {
    var i :| cfg.In(i, c) && Tick(s.cores[i]) == K;
    forall j | cfg.In(j, c)
      ensures s.cores[j].local == K && s.cores[j].pc.Idle?
    {
      assert !(Tick(s.cores[j]) < Tick(s.cores[i]) || !s.cores[j].pc.Idle?);
    }
  }

  /** The hypotheses of uniform throttling on the first `n` steps of a run. */
  ghost predicate Disciplined(cfg: Config, r: Run, n: nat, c: nat)
    requires cfg.Valid() && r.Valid(cfg) && n <= |r.actions|
  {
    forall k :: 0 <= k < n ==> PunctualAt(cfg, r, k, c) && DisciplinedAt(cfg, r, k, c)
  }

  ghost predicate DisciplinedAt(cfg: Config, r: Run, k: nat, c: nat)
    requires cfg.Valid() && r.Valid(cfg) && k < |r.actions|
  {
    && r.Step(cfg, k)
    && Prompt(cfg, r.states[k], r.actions[k], c)
    && GpuOutside(cfg, r.states[k], r.actions[k], c)
  }

  lemma {:induction false} UniformInEveryRun(cfg: Config, r: Run, n: nat, c: nat) returns (K: nat)
    requires cfg.Valid() && cfg.interval >= 2 && r.Valid(cfg) && n <= |r.actions| && c < |cfg.budget|
    requires Disciplined(cfg, r, n, c)
    ensures Uniform(cfg, r.states[n], c, K)
  {
    if n == 0 {
      K := 0;
    } else {
      K := UniformInEveryRun(cfg, r, n - 1, c);
      PunctualMeansInStep(cfg, r, n, c);
      assert InStepAt(cfg, r, n - 1, c) && DisciplinedAt(cfg, r, n - 1, c);
      UniformStep(cfg, r.states[n - 1], r.actions[n - 1], c, K);
      K := NextTick(cfg, r.states[n - 1], r.actions[n - 1], c, K);
    }
  }

  /** Outside the middle of a regulation tick the cores of a cluster are all throttled or all not;
      and a core that has just finished an aggregation tick leaves no core running while usage
      exceeds the budget. */
  lemma ThrottlingIsUniform(cfg: Config, r: Run, n: nat, c: nat)
    requires cfg.Valid() && cfg.interval >= 2 && r.Valid(cfg) && n <= |r.actions| && c < |cfg.budget|
    requires Disciplined(cfg, r, n, c)
    ensures !MidRegulation(cfg, r.states[n], c) ==> AllStopped(cfg, r.states[n], c) || NoneStopped(cfg, r.states[n], c)
    ensures n > 0 && r.actions[n - 1].Check? && cfg.In(r.actions[n - 1].core, c) && r.states[n].usage[c] > cfg.budget[c]
      ==> AllStopped(cfg, r.states[n], c)
  {
    var K := UniformInEveryRun(cfg, r, n, c);
    if !MidRegulation(cfg, r.states[n], c) && IsRegulation(cfg, K) {
      NotTwoRegulations(cfg, K);
      MidRegulationEnds(cfg, r.states[n], c, K);
    }
    if n > 0 && r.actions[n - 1].Check? && cfg.In(r.actions[n - 1].core, c) && r.states[n].usage[c] > cfg.budget[c] {
      CheckLeavesStopped(cfg, r, n - 1, c);
    }
  }

  lemma CheckLeavesStopped(cfg: Config, r: Run, n: nat, c: nat)
    requires cfg.Valid() && cfg.interval >= 2 && r.Valid(cfg) && n < |r.actions| && c < |cfg.budget|
    requires Disciplined(cfg, r, n, c) && r.actions[n].Check? && cfg.In(r.actions[n].core, c)
    requires r.states[n + 1].usage[c] > cfg.budget[c]
    ensures AllStopped(cfg, r.states[n + 1], c)
  {
    var K := UniformInEveryRun(cfg, r, n, c);
    assert r.Step(cfg, n);
    assert r.states[n + 1].usage == r.states[n].usage;
    CheckStops(cfg, r.states[n], r.actions[n].core, c, K);
  }

  /** A check over budget stops the cluster, if it is not stopped already. */
  lemma CheckStops(cfg: Config, s: State, i: nat, c: nat, K: nat)
    requires cfg.Valid() && s.Shape(cfg) && Enabled(cfg, s, Check(i)) && cfg.In(i, c) && c < |cfg.budget|
    requires Uniform(cfg, s, c, K) && s.usage[c] > cfg.budget[c]
    ensures AllStopped(cfg, Apply(cfg, s, Check(i)), c)
  {
    if AllStopped(cfg, s, c) { SteadyStep(cfg, s, Check(i), c); }
  }

  /** The regulation body that ends a regulation tick of a disciplined run leaves every core of the
      cluster running. */
  lemma RegulationReopens(cfg: Config, r: Run, n: nat, c: nat, K: nat)
    requires cfg.Valid() && cfg.interval >= 2 && r.Valid(cfg) && n < |r.actions| && c < |cfg.budget|
    requires Disciplined(cfg, r, n + 1, c) && r.actions[n].Regulate? && cfg.In(r.actions[n].core, c)
    requires Finished(cfg, r.states[n + 1], c, K)
    ensures NoneStopped(cfg, r.states[n + 1], c)
  {
    assert DisciplinedAt(cfg, r, n, c) && r.Step(cfg, n);
    var J := UniformInEveryRun(cfg, r, n, c);
    ReopensLast(cfg, r.states[n], r.actions[n].core, c, J, K);
  }

  lemma ReopensLast(cfg: Config, s: State, i: nat, c: nat, J: nat, K: nat)
    requires cfg.Valid() && s.Shape(cfg) && Enabled(cfg, s, Regulate(i)) && cfg.In(i, c)
    requires Uniform(cfg, s, c, J) && Finished(cfg, Apply(cfg, s, Regulate(i)), c, K)
    ensures NoneStopped(cfg, Apply(cfg, s, Regulate(i)), c)
  {
    var t := Apply(cfg, s, Regulate(i));
    assert AtTick(s.cores[i], J) && t.cores[i].local == s.cores[i].local == J == K;
    forall j | cfg.In(j, c)
      ensures !t.cores[j].Stopped()
    {
      assert t.cores[j].local == K && t.cores[j].pc.Idle?;
      assert s.cores[j].local == K;
    }
  }

  // ---------- a full aggregation tick, with the receivers unrestricted ----------

  /** From `m` to `n` a punctual run goes through aggregation tick `K`, and no addition to the
      cluster's usage overflows. */
  ghost predicate FullTick(cfg: Config, r: Run, m: nat, n: nat, c: nat, K: nat)
    requires cfg.Valid() && r.Valid(cfg) && m <= n <= |r.actions| && c < |cfg.budget|
  {
    && !IsRegulation(cfg, K)
    && (forall i :: cfg.In(i, c) ==> r.states[m].cores[i].local + 1 == K && r.states[m].cores[i].pc.Idle?)
    && Finished(cfg, r.states[n], c, K)
    && (forall k :: 0 <= k < n ==> PunctualAt(cfg, r, k, c))
    && (forall k :: m <= k < n ==> ExactAt(cfg, r, k, c))
  }

  ghost predicate ExactAt(cfg: Config, r: Run, k: nat, c: nat)
    requires cfg.Valid() && r.Valid(cfg) && k < |r.actions| && c < |cfg.budget|
  {
    r.Step(cfg, k) && AddsExactly(cfg, r.states[k], r.actions[k], c)
  }

  /** What a receiver takes off the usage of cluster `c` by a negative charge. */
  function TakenBy(a: Action, c: nat): nat {
    if a.GpuAdd? && a.cluster == c && a.amount < 0 then -a.amount else 0
  }

  function Taken(r: Run, m: nat, n: nat, c: nat): nat
    requires m <= n <= |r.actions|
    decreases n - m
  {
    if m == n then 0 else TakenBy(r.actions[m], c) + Taken(r, m + 1, n, c)
  }

  /** Usage is over budget by more than `left`, and every core that has finished tick `K` is stopped. */
  ghost predicate Closing(cfg: Config, s: State, c: nat, K: nat, left: nat)
    requires cfg.Valid() && s.Shape(cfg) && c < |cfg.budget|
  {
    && s.usage[c] > cfg.budget[c] + left
    && forall i :: cfg.In(i, c) ==> Closed(s.cores[i], K)
  }

  predicate Closed(k: Core, K: nat) {
    AtTick(k, K) && (k.local == K && k.pc.Idle? ==> k.Stopped())
  }

  lemma ClosingStep(cfg: Config, s: State, a: Action, c: nat, K: nat, left: nat)
    requires cfg.Valid() && s.Shape(cfg) && Enabled(cfg, s, a) && c < |cfg.budget|
    requires Telescoped(s) && Closing(cfg, s, c, K, left + TakenBy(a, c)) && !IsRegulation(cfg, K)
    requires InStep(cfg, s, a, c) && AddsExactly(cfg, s, a, c)
    requires a.Swap? && cfg.In(a.core, c) ==> s.cores[a.core].local != K
    ensures Closing(cfg, Apply(cfg, s, a), c, K, left)
  {
    ClosingUsage(cfg, s, a, c, K, left);
    forall i | cfg.In(i, c)
      ensures Closed(Apply(cfg, s, a).cores[i], K)
    {
      ClosingCore(cfg, s, a, c, K, left, i);
    }
  }

  lemma ClosingUsage(cfg: Config, s: State, a: Action, c: nat, K: nat, left: nat)
    requires cfg.Valid() && s.Shape(cfg) && Enabled(cfg, s, a) && c < |cfg.budget|
    requires Telescoped(s) && Closing(cfg, s, c, K, left + TakenBy(a, c)) && !IsRegulation(cfg, K)
    requires AddsExactly(cfg, s, a, c)
    ensures Apply(cfg, s, a).usage[c] > cfg.budget[c] + left
  {
    match a
    case Regulate(i) => assert cfg.In(i, c) ==> Closed(s.cores[i], K);
    case Charge(i) => if cfg.In(i, c) { WrapBelow(s.usage[c] + s.cores[i].Residue()); }
    case GpuAdd(d, x) => if d == c { WrapBelow(s.usage[c] + x); }
    case _ =>
  }

  lemma ClosingCore(cfg: Config, s: State, a: Action, c: nat, K: nat, left: nat, i: nat)
    requires cfg.Valid() && s.Shape(cfg) && Enabled(cfg, s, a) && c < |cfg.budget| && cfg.In(i, c)
    requires Closing(cfg, s, c, K, left) && !IsRegulation(cfg, K) && InStep(cfg, s, a, c)
    requires a.Swap? && cfg.In(a.core, c) ==> s.cores[a.core].local != K
    ensures Closed(Apply(cfg, s, a).cores[i], K)
  {
    assert Closed(s.cores[i], K);
  }

  /** Some core of the cluster is past tick `K`, for good. */
  ghost predicate Passed(cfg: Config, s: State, c: nat, K: nat)
    requires s.Shape(cfg)
  {
    exists i :: cfg.In(i, c) && (s.cores[i].local > K || (s.cores[i].local == K && s.cores[i].pc.Swapped?))
  }

  lemma {:induction false} PassedForGood(cfg: Config, r: Run, m: nat, n: nat, c: nat, K: nat)
    requires cfg.Valid() && r.Valid(cfg) && m <= n <= |r.actions| && Passed(cfg, r.states[m], c, K)
    ensures Passed(cfg, r.states[n], c, K)
    decreases n - m
  {
    if m < n {
      var s, a := r.states[m], r.actions[m];
      assert r.Step(cfg, m);
      TickCounter.TicksInEveryRun(cfg, r, m);
      TickCounter.TickStep(cfg, s, a);
      var i :| cfg.In(i, c) && (s.cores[i].local > K || (s.cores[i].local == K && s.cores[i].pc.Swapped?));
      PassedForGood(cfg, r, m + 1, n, c, K);
    }
  }

  lemma ClosingNext(cfg: Config, r: Run, m: nat, n: nat, k: nat, c: nat, K: nat)
    requires cfg.Valid() && r.Valid(cfg) && m <= k < n <= |r.actions| && c < |cfg.budget|
    requires FullTick(cfg, r, m, n, c, K) && Closing(cfg, r.states[k], c, K, Taken(r, k, n, c))
    ensures Closing(cfg, r.states[k + 1], c, K, Taken(r, k + 1, n, c))
  {
    var s, a := r.states[k], r.actions[k];
    assert ExactAt(cfg, r, k, c);
    ConservedInEveryRun(cfg, r, k, c);
    PunctualMeansInStep(cfg, r, n, c);
    assert InStepAt(cfg, r, k, c);
    if a.Swap? && cfg.In(a.core, c) && s.cores[a.core].local == K {
      assert Passed(cfg, r.states[k + 1], c, K) by { assert cfg.In(a.core, c); }
      PassedForGood(cfg, r, k + 1, n, c, K);
    }
    ClosingStep(cfg, s, a, c, K, Taken(r, k + 1, n, c));
  }

  lemma {:induction false} ClosingInTick(cfg: Config, r: Run, m: nat, n: nat, k: nat, c: nat, K: nat)
    requires cfg.Valid() && r.Valid(cfg) && m <= k <= n <= |r.actions| && c < |cfg.budget|
    requires FullTick(cfg, r, m, n, c, K) && r.states[m].usage[c] > cfg.budget[c] + Taken(r, m, n, c)
    ensures Closing(cfg, r.states[k], c, K, Taken(r, k, n, c))
    decreases k
  {
    if k > m {
      ClosingInTick(cfg, r, m, n, k - 1, c, K);
      ClosingNext(cfg, r, m, n, k - 1, c, K);
    }
  }

  /** Whatever the receivers did before, and however the cores stood: an aggregation tick ends with
      every core of the cluster stopped if it starts over budget by more than the receivers' negative
      charges take off during the tick. */
  lemma FullTickStopsCluster(cfg: Config, r: Run, m: nat, n: nat, c: nat, K: nat)
    requires cfg.Valid() && r.Valid(cfg) && m <= n <= |r.actions| && c < |cfg.budget|
    requires FullTick(cfg, r, m, n, c, K) && r.states[m].usage[c] > cfg.budget[c] + Taken(r, m, n, c)
    ensures AllStopped(cfg, r.states[n], c)
  {
    ClosingInTick(cfg, r, m, n, n, c, K);
  }
}
