/**
 Punctual callbacks keep the cores of a cluster in step. The code does not enforce punctuality: it is
 a hypothesis about how far time advances, and without it a core can skip a tick.
 */
module Punctuality {
  import opened MachineInts
  import opened Regulator
  import opened TickCounter
  import opened Periods

  /** A core of cluster `c` enters tick k + 1 only when every core of the cluster has finished tick
      k, and no core skips a tick. */
  ghost predicate InStep(cfg: Config, s: State, a: Action, c: nat)
    requires cfg.Valid() && s.Shape(cfg) && Enabled(cfg, s, a)
  {
    match a
    case Swap(i) => cfg.In(i, c) ==>
      forall j :: 0 <= j < |s.cores| && cfg.In(j, c) ==>
        || (s.cores[j].local == s.cores[i].local && (s.cores[j].pc.Idle? || s.cores[j].pc.Swapped?))
        || s.cores[j].local == s.cores[i].local + 1
    case Fetch(i) => cfg.In(i, c) ==> s.count == s.cores[i].local + 1
    case _ => true
  }

  /** The callback that is due at start + k * T_A has to be over before start + (k + 1) * T_A. */
  function Deadline(cfg: Config, k: Core): int {
    cfg.start + DueTick(k) * cfg.periodNs
  }

  /** The tick whose callback the core is in, or the next one. */
  function DueTick(k: Core): nat {
    if k.pc.Idle? || k.pc.Swapped? then k.local + 1 else k.local
  }

  /** Time does not reach the deadline of any core of the cluster. */
  ghost predicate Punctual(cfg: Config, s: State, a: Action, c: nat)
    requires s.Shape(cfg)
  {
    a.Advance? ==> forall i :: cfg.In(i, c) ==> s.now + a.ns < Deadline(cfg, s.cores[i])
  }

  ghost predicate OnTime(cfg: Config, s: State, c: nat)
    requires s.Shape(cfg)
  {
    forall i :: cfg.In(i, c) ==> s.now < Deadline(cfg, s.cores[i])
  }

  lemma OnTimeStep(cfg: Config, s: State, a: Action, c: nat)
    requires cfg.Valid() && s.Shape(cfg) && Enabled(cfg, s, a)
    requires LocalsBehind(s) && OnTime(cfg, s, c) && Punctual(cfg, s, a, c)
    ensures OnTime(cfg, Apply(cfg, s, a), c)
  {
    forall i | cfg.In(i, c)
      ensures Apply(cfg, s, a).now < Deadline(cfg, Apply(cfg, s, a).cores[i])
    {
      DeadlineStep(cfg, s, a, i);
    }
  }

  /** No step brings a core's deadline forward. */
  lemma DeadlineStep(cfg: Config, s: State, a: Action, i: nat)
    requires cfg.Valid() && s.Shape(cfg) && Enabled(cfg, s, a) && LocalsBehind(s) && i < |s.cores|
    ensures Deadline(cfg, s.cores[i]) <= Deadline(cfg, Apply(cfg, s, a).cores[i])
  {
    var k, l := s.cores[i], Apply(cfg, s, a).cores[i];
    assert DueTick(k) <= DueTick(l);
    MulLe(DueTick(k), DueTick(l), cfg.periodNs);
  }

  /** Two times on the same side of a tick belong to the same tick. */
  lemma NoLaterTick(a: int, b: int, T: int)
    requires T >= 1 && a * T < b * T
    ensures a < b
  {
    if b <= a { MulLe(b, a, T); }
  }

  lemma OnTimeMeansInStep(cfg: Config, s: State, a: Action, c: nat)
    requires cfg.Valid() && s.Shape(cfg) && Enabled(cfg, s, a)
    requires LocalsBehind(s) && Armed(cfg, s) && OnTime(cfg, s, c)
    ensures InStep(cfg, s, a, c)
  {
    if (a.Swap? || a.Fetch?) && cfg.In(a.core, c) {
      var T, L := cfg.periodNs, s.cores[a.core].local;
      if s.count > 0 { NoLaterTick(s.count - 1, L + 1, T); }
      if a.Swap? {
        forall j | cfg.In(j, c)
          ensures || (s.cores[j].local == L && (s.cores[j].pc.Idle? || s.cores[j].pc.Swapped?))
                  || s.cores[j].local == L + 1
        {
          var k := s.cores[j];
          NoLaterTick(L, DueTick(k), T);
        }
      }
    }
  }

  // ---------- the regulation periods of a punctual run ----------

  /** Tick of the last callback body the core has executed. */
  function Executed(k: Core): int {
    if k.pc.Fetched? then k.local - 1 else k.local
  }

  /** The leader has counted every regulation tick it has gone through: ticks 1, 1 + M, 1 + 2M, ... */
  ghost predicate Counted(cfg: Config, s: State, c: nat)
    requires cfg.Valid() && s.Shape(cfg) && c < |cfg.budget|
  {
    cfg.In(cfg.leader[c], c) ==>
      var p := Executed(s.cores[cfg.leader[c]]);
      p >= 0 && s.regulations[c] == (p + cfg.interval - 1) / cfg.interval
  }

  /** Going on to the next tick raises the rounded-up quotient exactly if that is a regulation tick. */
  lemma NextQuotient(p: nat, M: nat)
    requires M >= 2
    ensures (p + 1 + M - 1) / M == (p + M - 1) / M + if (p + 1) % M == 1 then 1 else 0
  {
    var q, r := p / M, p % M;
    assert p == q * M + r;
    if r == 0 {
      DivUnique(p + M - 1, M, q, M - 1);
      DivUnique(p + M, M, q + 1, 0);
      DivUnique(p + 1, M, q, 1);
    } else {
      DivUnique(p + M - 1, M, q + 1, r - 1);
      DivUnique(p + M, M, q + 1, r);
      if r + 1 == M { DivUnique(p + 1, M, q + 1, 0); } else { DivUnique(p + 1, M, q, r + 1); }
    }
  }

  lemma CountedStep(cfg: Config, s: State, a: Action, c: nat)
    requires cfg.Valid() && cfg.interval >= 2 && s.Shape(cfg) && Enabled(cfg, s, a) && c < |cfg.budget|
    requires LocalsBehind(s) && Armed(cfg, s) && InStep(cfg, s, a, c) && Counted(cfg, s, c)
    ensures Counted(cfg, Apply(cfg, s, a), c)
  {
    var l := cfg.leader[c];
    if cfg.In(l, c) && (a.Regulate? || a.Charge?) && a.core == l {
      NextQuotient(s.cores[l].local - 1, cfg.interval);
    }
  }

  ghost predicate PunctualAt(cfg: Config, r: Run, k: nat, c: nat)
    requires cfg.Valid() && r.Valid(cfg) && k < |r.actions|
  {
    r.Step(cfg, k) && Punctual(cfg, r.states[k], r.actions[k], c)
  }

  ghost predicate InStepAt(cfg: Config, r: Run, k: nat, c: nat)
    requires cfg.Valid() && r.Valid(cfg) && k < |r.actions|
  {
    r.Step(cfg, k) && InStep(cfg, r.states[k], r.actions[k], c)
  }

  /** If time never reaches a deadline of the cluster, every step of the run is in step. */
  lemma {:induction false} PunctualMeansInStep(cfg: Config, r: Run, n: nat, c: nat)
    requires cfg.Valid() && r.Valid(cfg) && n <= |r.actions| && c < |cfg.budget|
    requires forall k :: 0 <= k < n ==> PunctualAt(cfg, r, k, c)
    ensures OnTime(cfg, r.states[n], c)
    ensures forall k :: 0 <= k < n ==> InStepAt(cfg, r, k, c)
  {
    if n > 0 {
      PunctualMeansInStep(cfg, r, n - 1, c);
      var s, a := r.states[n - 1], r.actions[n - 1];
      assert r.Step(cfg, n - 1) && PunctualAt(cfg, r, n - 1, c);
      ArmedInEveryRun(cfg, r, n - 1, c);
      OnTimeMeansInStep(cfg, s, a, c);
      OnTimeStep(cfg, s, a, c);
    }
  }

  lemma {:induction false} CountedInPunctualRun(cfg: Config, r: Run, n: nat, c: nat)
    requires cfg.Valid() && cfg.interval >= 2 && r.Valid(cfg) && n <= |r.actions| && c < |cfg.budget|
    requires forall k :: 0 <= k < n ==> PunctualAt(cfg, r, k, c)
    ensures Counted(cfg, r.states[n], c)
  {
    if n == 0 {
      DivUnique(cfg.interval - 1, cfg.interval, 0, cfg.interval - 1);
    } else {
      CountedInPunctualRun(cfg, r, n - 1, c);
      PunctualMeansInStep(cfg, r, n, c);
      ArmedInEveryRun(cfg, r, n - 1, c);
      assert InStepAt(cfg, r, n - 1, c);
      CountedStep(cfg, r.states[n - 1], r.actions[n - 1], c);
    }
  }

  lemma PeriodsLowerBound(p: nat, M: nat, T: nat, e: nat)
    requires M >= 1 && T >= 1 && e < (p + 1) * T
    ensures M * T > 0 && e / (M * T) <= (p + M - 1) / M
  {
    MulLe(1, M, T);
    var q, m := e / (M * T), (p + M - 1) / M;
    assert q * (M * T) <= e;
    Regroup(q, M, T);
    NoLaterTick(q * M, p + 1, T);
    assert p + M - 1 < (m + 1) * M by { assert (m + 1) * M == m * M + M; }
    if q > m { MulLe(m + 1, q, M); }
  }

  /** In a punctual run the regulation periods follow time from both sides: the leader has counted at
      least the periods that have elapsed, and at most one more. */
  lemma PeriodsKeepUp(cfg: Config, r: Run, n: nat, c: nat)
    requires cfg.Valid() && cfg.interval >= 2 && r.Valid(cfg) && n <= |r.actions| && c < |cfg.budget|
    requires cfg.In(cfg.leader[c], c) && forall k :: 0 <= k < n ==> PunctualAt(cfg, r, k, c)
    ensures cfg.interval * cfg.periodNs > 0
    ensures var elapsed := (r.states[n].now - cfg.start) / (cfg.interval * cfg.periodNs);
      elapsed <= r.states[n].regulations[c] <= elapsed + 1
  {
    CountedInPunctualRun(cfg, r, n, c);
    PunctualMeansInStep(cfg, r, n, c);
    ArmedInEveryRun(cfg, r, n, c);
    TicksFollowTime(cfg, r, n, c);
    var s, k := r.states[n], r.states[n].cores[cfg.leader[c]];
    assert DueTick(k) <= Executed(k) + 1;
    MulLe(DueTick(k), Executed(k) + 1, cfg.periodNs);
    PeriodsLowerBound(Executed(k), cfg.interval, cfg.periodNs, s.now - cfg.start);
  }
}
