/** What the cores of a cluster can charge in one regulation period, whatever the budget. */
module Spending {
  import opened MachineInts
  import opened Overshoot
  import opened Regulator
  import opened Punctuality
  import opened Lockstep
  import opened Budget

  /** Position of a tick in its regulation period; the regulation tick has position 0. */
  function Position(cfg: Config, tick: int): nat
    requires cfg.interval >= 1
  {
    (tick - 1) % cfg.interval
  }

  /** What a core may have charged since the reset: one interval for every body it has executed, the
      regulation tick included. What it has left over is not charged yet. */
  function Allowance(cfg: Config, e: nat, k: Core): int
    requires cfg.interval >= 1
  {
    (Position(cfg, Executed(k)) + 1) * e + k.gen - k.Residue()
  }

  function AllowanceIn(cfg: Config, e: nat): Core -> int
    requires cfg.interval >= 1
  {
    (k: Core) => Allowance(cfg, e, k)
  }

  function Allowances(cfg: Config, s: State, c: nat, e: nat): int
    requires cfg.interval >= 1 && s.Shape(cfg)
  {
    Total(cfg, s.cores, c, AllowanceIn(cfg, e))
  }

  /** Every event since the last body is still uncharged. */
  ghost predicate Fresh(cfg: Config, s: State, c: nat)
    requires s.Shape(cfg)
  {
    forall i :: cfg.In(i, c) ==> s.cores[i].gen <= s.cores[i].Residue()
  }

  ghost predicate SpendBound(cfg: Config, s: State, c: nat, e: nat, K: nat, v: int)
    requires cfg.Valid() && s.Shape(cfg)
  {
    if IsRegulation(cfg, K) && !Finished(cfg, s, c, K) then v <= Cores(cfg, c) * (cfg.interval * e)
    else v <= Allowances(cfg, s, c, e)
  }

  lemma FreshStep(cfg: Config, s: State, a: Action, c: nat)
    requires cfg.Valid() && s.Shape(cfg) && Enabled(cfg, s, a) && Fresh(cfg, s, c)
    requires forall i :: cfg.In(i, c) ==> 0 <= s.cores[i].Residue()
    ensures Fresh(cfg, Apply(cfg, s, a), c)
  {
    forall i | cfg.In(i, c)
      ensures Apply(cfg, s, a).cores[i].gen <= Apply(cfg, s, a).cores[i].Residue()
    {
      assert s.cores[i].gen <= s.cores[i].Residue() && 0 <= s.cores[i].Residue();
    }
  }

  /** No core is allowed more than a period's worth. */
  lemma AllowancesBound(cfg: Config, s: State, c: nat, e: nat)
    requires cfg.interval >= 1 && s.Shape(cfg) && Fresh(cfg, s, c)
    ensures Allowances(cfg, s, c, e) <= Cores(cfg, c) * (cfg.interval * e)
  {
    forall i | cfg.In(i, c)
      ensures AllowanceIn(cfg, e)(s.cores[i]) <= cfg.interval * e
    {
      MulLe(Position(cfg, Executed(s.cores[i])) + 1, cfg.interval, e);
      assert s.cores[i].gen <= s.cores[i].Residue();
    }
    TotalAtMost(cfg, s.cores, c, AllowanceIn(cfg, e), cfg.interval * e);
  }

  lemma {:induction false} TotalAtMost(cfg: Config, cores: seq<Core>, c: nat, f: Core -> int, hi: int)
    requires |cores| <= |cfg.clusterOf|
    requires forall j :: 0 <= j < |cores| && cfg.In(j, c) ==> f(cores[j]) <= hi
    ensures Total(cfg, cores, c, f) <= Size(cfg, c, |cores|) * hi
  {
    if |cores| > 0 {
      var n := |cores| - 1;
      TotalAtMost(cfg, cores[..n], c, f, hi);
      if cfg.clusterOf[n] == c {
        assert cfg.In(n, c);
        OneMore(Size(cfg, c, n), hi);
      }
    }
  }

  lemma NextPosition(cfg: Config, K: nat)
    requires cfg.interval >= 2 && K >= 1 && !IsRegulation(cfg, K)
    ensures Position(cfg, K) == Position(cfg, K - 1) + 1
  {
    var M := cfg.interval;
    var q, p := (K - 2) / M, (K - 2) % M;
    assert K - 2 == q * M + p;
    if p == M - 1 {
      assert (q + 1) * M == q * M + M;
      DivUnique(K, M, q + 1, 1);
    } else {
      DivUnique(K - 1, M, q, p + 1);
    }
  }

  /** Charging uses up allowance. */
  lemma ChargeSpends(cfg: Config, s: State, i: nat, c: nat, e: nat)
    requires cfg.Valid() && cfg.interval >= 2 && s.Shape(cfg) && Enabled(cfg, s, Charge(i)) && cfg.In(i, c)
    requires CoreBound(cfg, s.cores[i], e)
    ensures Allowances(cfg, Apply(cfg, s, Charge(i)), c, e) >= Allowances(cfg, s, c, e) + Residue(s.cores[i])
  {
    var k, l := s.cores[i], Apply(cfg, s, Charge(i)).cores[i];
    TotalUpdate(cfg, s.cores, c, AllowanceIn(cfg, e), i, l);
    NextPosition(cfg, k.local);
    OneMore(Position(cfg, k.local - 1) + 1, e);
  }

  /** Any step but a charge or a regulation body of the cluster leaves a core's allowance alone. */
  lemma AllowanceSame(cfg: Config, s: State, a: Action, c: nat, e: nat)
    requires cfg.Valid() && s.Shape(cfg) && Enabled(cfg, s, a) && InStep(cfg, s, a, c)
    requires (a.Regulate? || a.Charge?) ==> !cfg.In(a.core, c)
    ensures Allowances(cfg, Apply(cfg, s, a), c, e) == Allowances(cfg, s, c, e)
  {
    var t := Apply(cfg, s, a);
    forall j | cfg.In(j, c)
      ensures AllowanceIn(cfg, e)(t.cores[j]) == AllowanceIn(cfg, e)(s.cores[j])
    {
      assert Executed(t.cores[j]) == Executed(s.cores[j]);
      assert t.cores[j].gen - t.cores[j].Residue() == s.cores[j].gen - s.cores[j].Residue();
    }
    TotalSame(cfg, t.cores, s.cores, c, AllowanceIn(cfg, e));
  }

  /** After the regulation tick every core has one interval. */
  lemma ResetAllowance(cfg: Config, t: State, c: nat, e: nat, K: nat)
    requires cfg.Valid() && t.Shape(cfg) && CoresBound(cfg, t, c, e) && Finished(cfg, t, c, K)
    requires IsRegulation(cfg, K)
    ensures 0 <= Allowances(cfg, t, c, e)
  {
    forall i | cfg.In(i, c)
      ensures 0 <= AllowanceIn(cfg, e)(t.cores[i])
    {
      assert CoreBound(cfg, t.cores[i], e);
      assert Position(cfg, K) == 0 by { DivUnique(K - 1, cfg.interval, K / cfg.interval, 0); }
    }
    TotalNotNegative(cfg, t.cores, c, AllowanceIn(cfg, e));
  }

  lemma {:induction false} TotalNotNegative(cfg: Config, cores: seq<Core>, c: nat, f: Core -> int)
    requires |cores| <= |cfg.clusterOf|
    requires forall j :: 0 <= j < |cores| && cfg.In(j, c) ==> 0 <= f(cores[j])
    ensures 0 <= Total(cfg, cores, c, f)
  {
    if |cores| > 0 {
      assert cfg.In(|cores| - 1, c) <==> cfg.clusterOf[|cores| - 1] == c;
      TotalNotNegative(cfg, cores[..|cores| - 1], c, f);
    }
  }

  lemma SpendStep(cfg: Config, s: State, a: Action, c: nat, e: nat, K: nat, v: int, w: int)
    requires cfg.Valid() && cfg.interval >= 2 && c < |cfg.budget| && s.Shape(cfg) && Enabled(cfg, s, a)
    requires Together(cfg, s, c, K) && CoresBound(cfg, s, c, e) && CoresBound(cfg, Apply(cfg, s, a), c, e)
    requires Fresh(cfg, s, c) && SpendBound(cfg, s, c, e, K, v) && InStep(cfg, s, a, c)
    requires w <= v + if a.Charge? && cfg.In(a.core, c) then Residue(s.cores[a.core]) else 0
    requires NextTick(cfg, s, a, c, K) == K + 1 ==> Finished(cfg, s, c, K)
    requires IsRegulation(cfg, K) && Finished(cfg, Apply(cfg, s, a), c, K) && !Finished(cfg, s, c, K) ==> w <= 0
    ensures SpendBound(cfg, Apply(cfg, s, a), c, e, NextTick(cfg, s, a, c, K), w)
  {
    var t, L := Apply(cfg, s, a), NextTick(cfg, s, a, c, K);
    AllowancesBound(cfg, s, c, e);
    if IsRegulation(cfg, L) && !Finished(cfg, t, c, L) {
    } else if IsRegulation(cfg, K) && !Finished(cfg, s, c, K) {
      ResetAllowance(cfg, t, c, e, K);
    } else if a.Charge? && cfg.In(a.core, c) {
      ChargeSpends(cfg, s, a.core, c, e);
    } else {
      AllowanceSame(cfg, s, a, c, e);
    }
  }

  // ---------- runs ----------

  /** A step adds at most the residue it charges to what the cores have charged. */
  lemma ChargedBy(cfg: Config, s: State, a: Action, c: nat, e: nat, d: nat, g: nat, K: nat, received: int)
    requires Setting(cfg, c, e, d, g) && s.Shape(cfg) && Enabled(cfg, s, a)
    requires Together(cfg, s, c, K) && CoresBound(cfg, s, c, e) && UsageBound(cfg, s, c, e, d, K, s.usage[c] - received)
    requires InBounds(received, d, g) && InBounds(SinceReset(cfg, a, received, c), d, g)
    ensures Apply(cfg, s, a).usage[c] - SinceReset(cfg, a, received, c)
         <= s.usage[c] - received + if a.Charge? && cfg.In(a.core, c) then Residue(s.cores[a.core]) else 0
  {
    var v := s.usage[c] - received;
    WithinWorst(cfg, s, c, e, d, K, v);
    if a.Charge? && cfg.In(a.core, c) {
      ChargeBound(cfg, s, a.core, c, e, d, g, K, v);
    } else if !(a.Regulate? || a.Check?) || !cfg.In(a.core, c) {
      QuietUsage(cfg, s, a, c, e, d, g, received);
    }
  }

  lemma {:induction false} SpendInEveryRun(cfg: Config, r: Run, n: nat, c: nat, e: nat, d: nat, g: nat) returns (K: nat)
    requires Setting(cfg, c, e, d, g) && r.Valid(cfg) && n <= |r.actions| && Admissible(cfg, r, n, c, e, d, g)
    ensures Uniform(cfg, r.states[n], c, K) && CoresBound(cfg, r.states[n], c, e) && Fresh(cfg, r.states[n], c)
    ensures UsageBound(cfg, r.states[n], c, e, d, K, r.states[n].usage[c] - Received(cfg, r, n, c))
    ensures SpendBound(cfg, r.states[n], c, e, K, r.states[n].usage[c] - Received(cfg, r, n, c))
  {
    if n == 0 {
      K := BoundsInEveryRun(cfg, r, 0, c, e, d, g);
      StartsBelow(cfg, c, e, K);
    } else {
      K := SpendInEveryRun(cfg, r, n - 1, c, e, d, g);
      StepMeets(cfg, r, n, n - 1, c, e, d, g);
      K := SpendNext(cfg, r.states[n - 1], r.actions[n - 1], c, e, d, g, K, Received(cfg, r, n - 1, c));
    }
  }

  lemma SpendNext(cfg: Config, s: State, a: Action, c: nat, e: nat, d: nat, g: nat, K: nat, received: int)
      returns (L: nat)
    requires Setting(cfg, c, e, d, g) && s.Shape(cfg) && Enabled(cfg, s, a)
    requires Uniform(cfg, s, c, K) && CoresBound(cfg, s, c, e) && Fresh(cfg, s, c)
    requires UsageBound(cfg, s, c, e, d, K, s.usage[c] - received) && SpendBound(cfg, s, c, e, K, s.usage[c] - received)
    requires InBounds(received, d, g) && InBounds(SinceReset(cfg, a, received, c), d, g)
    requires InStep(cfg, s, a, c) && Prompt(cfg, s, a, c) && GpuOutside(cfg, s, a, c) && Demand(cfg, s, a, c, e)
    ensures var t := Apply(cfg, s, a);
      && Uniform(cfg, t, c, L) && CoresBound(cfg, t, c, e) && Fresh(cfg, t, c)
      && UsageBound(cfg, t, c, e, d, L, t.usage[c] - SinceReset(cfg, a, received, c))
      && SpendBound(cfg, t, c, e, L, t.usage[c] - SinceReset(cfg, a, received, c))
  {
    L := NextTick(cfg, s, a, c, K);
    UsageStep(cfg, s, a, c, e, d, g, K, received);
    TogetherStep(cfg, s, a, c, K);
    ChargedBy(cfg, s, a, c, e, d, g, K, received);
    assert forall i :: cfg.In(i, c) ==> CoreBound(cfg, s.cores[i], e);
    FreshStep(cfg, s, a, c);
    SpendStep(cfg, s, a, c, e, K, s.usage[c] - received,
              Apply(cfg, s, a).usage[c] - SinceReset(cfg, a, received, c));
  }

  lemma StartsBelow(cfg: Config, c: nat, e: nat, K: nat)
    requires cfg.Valid() && c < |cfg.budget| && cfg.interval >= 1
    ensures SpendBound(cfg, Init(cfg), c, e, K, 0)
  {
    forall i | cfg.In(i, c)
      ensures 0 <= AllowanceIn(cfg, e)(Init(cfg).cores[i])
    {
      MulLe(0, Position(cfg, 0) + 1, e);
    }
    TotalNotNegative(cfg, Init(cfg).cores, c, AllowanceIn(cfg, e));
    MulLe(0, Cores(cfg, c), cfg.interval * e);
  }

  /** The highest usage n cores can reach: the worst of being throttled, unless they cannot even spend
      the budget before the last tick of the period. */
  function Maximum(cfg: Config, c: nat, e: nat, d: nat): int
    requires c < |cfg.budget| && 0 <= cfg.budget[c] && cfg.interval >= 2
  {
    if Cap(cfg, c, d) <= (cfg.interval - 1) * (Cores(cfg, c) * e) then Worst(cfg, c, e, d)
    else cfg.interval * (Cores(cfg, c) * e)
  }

  /** In every reachable state the usage exceeds what the cores can reach by at most what receivers
      may add between two resets. */
  lemma MaximumGuarantee(cfg: Config, r: Run, n: nat, c: nat, e: nat, d: nat, g: nat)
    requires Setting(cfg, c, e, d, g) && r.Valid(cfg) && n <= |r.actions| && Admissible(cfg, r, n, c, e, d, g)
    ensures -(d as int) <= r.states[n].usage[c] <= Maximum(cfg, c, e, d) + g
  {
    BudgetGuarantee(cfg, r, n, c, e, d, g);
    var K := SpendInEveryRun(cfg, r, n, c, e, d, g);
    AllowancesBound(cfg, r.states[n], c, e);
    assert InBounds(Received(cfg, r, n, c), d, g);
    Exchange(Cores(cfg, c), cfg.interval, e);
  }

  lemma Exchange(a: int, b: int, e: int)
    ensures a * (b * e) == b * (a * e)
  {
  }
}
