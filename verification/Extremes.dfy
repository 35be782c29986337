/**
 The maximum is reached: for every number of cores, every demand and every budget, by a punctual run
 in which receivers are silent.
 */
module Extremes {
  import opened MachineInts
  import opened Overshoot
  import opened Regulator
  import opened Punctuality
  import opened Lockstep
  import opened Budget
  import opened Spending
  import TickCounter
  import Periods

  // ---------- building admissible runs ----------

  /** What receivers may take off and add between two resets, and what they have added since the last. */
  datatype Gpu = Gpu(low: nat, high: nat, received: int)

  /** What building runs needs of the setting. */
  ghost predicate Ruled(cfg: Config, c: nat) {
    && cfg.Valid() && cfg.interval >= 2 && c < |cfg.budget|
    && cfg.In(cfg.leader[c], c) && 0 <= cfg.budget[c] < TWO_31
  }

  /** Receivers have taken off all they may. */
  ghost predicate AtLowest(cfg: Config, c: nat, e: nat, gpu: Gpu) {
    Setting(cfg, c, e, gpu.low, gpu.high) && gpu.received == -(gpu.low as int)
  }

  /** The run `r` is admissible and ends in `s`. */
  ghost predicate Reached(cfg: Config, c: nat, e: nat, gpu: Gpu, r: Run, s: State)
    requires cfg.Valid() && c < |cfg.budget|
  {
    && r.Valid(cfg)
    && Admissible(cfg, r, |r.actions|, c, e, gpu.low, gpu.high)
    && Received(cfg, r, |r.actions|, c) == gpu.received
    && r.states[|r.actions|] == s
  }

  lemma Start(cfg: Config, c: nat, e: nat, gpu: Gpu) returns (r: Run)
    requires cfg.Valid() && c < |cfg.budget| && gpu.received == 0
    ensures Reached(cfg, c, e, gpu, r, Init(cfg))
  {
    r := Run([Init(cfg)], []);
    assert Received(cfg, r, 0, c) == 0;
  }

  lemma {:induction false} ReceivedPrefix(cfg: Config, r: Run, q: Run, n: nat, c: nat)
    requires n <= |r.actions| <= |q.actions| && q.actions[..|r.actions|] == r.actions && c < |cfg.leader|
    ensures Received(cfg, r, n, c) == Received(cfg, q, n, c)
  {
    if n > 0 {
      ReceivedPrefix(cfg, r, q, n - 1, c);
      assert q.actions[..|r.actions|][n - 1] == r.actions[n - 1];
    }
  }

  lemma Extend(cfg: Config, c: nat, e: nat, gpu: Gpu, r: Run, s: State, a: Action) returns (q: Run)
    requires cfg.Valid() && c < |cfg.budget| && Reached(cfg, c, e, gpu, r, s)
    requires s.Shape(cfg) && Enabled(cfg, s, a) && !a.GpuCheck?
    requires a.GpuAdd? && a.cluster == c ==> InBounds(gpu.received + a.amount, gpu.low, gpu.high)
    requires Punctual(cfg, s, a, c) && Prompt(cfg, s, a, c) && Demand(cfg, s, a, c, e)
    ensures Reached(cfg, c, e, gpu.(received := SinceReset(cfg, a, gpu.received, c)), q, Apply(cfg, s, a))
  {
    var m := |r.actions|;
    q := Run(r.states + [Apply(cfg, s, a)], r.actions + [a]);
    forall k | 0 <= k < m + 1
      ensures q.Step(cfg, k)
    {
      if k < m { assert r.Step(cfg, k); }
    }
    assert q.Valid(cfg);
    forall k | 0 <= k < m + 1
      ensures PunctualAt(cfg, q, k, c) && DisciplinedAt(cfg, q, k, c) && DemandAt(cfg, q, k, c, e)
    {
      if k < m {
        assert PunctualAt(cfg, r, k, c) && DisciplinedAt(cfg, r, k, c) && DemandAt(cfg, r, k, c, e);
      }
    }
    ReceivedPrefix(cfg, r, q, m, c);
    assert InBounds(Received(cfg, r, m, c), gpu.low, gpu.high);
    forall k | 0 <= k <= m + 1
      ensures InBounds(Received(cfg, q, k, c), gpu.low, gpu.high)
    {
      if k <= m {
        ReceivedPrefix(cfg, r, q, k, c);
        assert InBounds(Received(cfg, r, k, c), gpu.low, gpu.high);
      }
    }
  }

  // ---------- visits to single cores ----------

  /** What a script needs to know of a core. */
  datatype View = View(pc: Pc, local: nat, residue: int, gen: nat)

  function ViewOf(k: Core): View {
    View(k.pc, k.local, k.Residue(), k.gen)
  }

  ghost predicate Looks(cfg: Config, s: State, c: nat, v: seq<View>) {
    && s.Shape(cfg) && |v| == |s.cores|
    && forall j :: cfg.In(j, c) ==> ViewOf(s.cores[j]) == v[j]
  }

  ghost predicate NoInterrupt(cfg: Config, s: State, c: nat)
    requires s.Shape(cfg)
  {
    forall j :: cfg.In(j, c) ==> !s.cores[j].ipi
  }

  /** Events between callbacks; the whole callback of tick 1; a callback up to its charge; its check,
      with usage within the budget or not. */
  datatype Op = Burst(x: seq<nat>) | Open | Enter(tick: nat) | Leave | LeaveOver

  function Result(op: Op, j: nat, v: View): View
    requires op.Burst? ==> j < |op.x|
  {
    match op
    case Burst(x) => v.(residue := v.residue + x[j], gen := v.gen + x[j])
    case Open => View(Idle, 1, v.residue, 0)
    case Enter(tick) => View(Charged(v.residue), tick, 0, 0)
    case _ => v.(pc := Idle)
  }

  ghost predicate Ready(op: Op, j: nat, v: View, e: nat) {
    match op
    case Burst(x) => j < |x| && v.pc.Idle? && v.gen + x[j] <= e
    case Open => v.pc.Idle? && v.local == 0
    case Enter(tick) => v.pc.Idle? && v.local + 1 == tick && v.residue >= 0
    case _ => v.pc.Charged?
  }

  /** What the cluster has to satisfy; a visit keeps it. */
  ghost predicate Allows(cfg: Config, s: State, c: nat, op: Op)
    requires cfg.Valid() && s.Shape(cfg) && c < |cfg.budget|
  {
    match op
    case Burst(_) => NoneStopped(cfg, s, c)
    case Open => NoneStopped(cfg, s, c) && s.usage[c] == 0 && s.count <= 1
    case Enter(tick) =>
      && NoInterrupt(cfg, s, c) && tick >= 1 && !IsRegulation(cfg, tick)
      && tick - 1 <= s.count <= tick && cfg.start + (tick - 1) * cfg.periodNs <= s.now
    case Leave => NoneStopped(cfg, s, c) && s.usage[c] <= cfg.budget[c]
    case LeaveOver => true
  }

  function Gain(op: Op, v: View): int {
    if op.Enter? then v.residue else 0
  }

  /** What visiting core `i` leads to. */
  ghost predicate Visited(cfg: Config, s: State, t: State, c: nat, op: Op, i: nat, v: seq<View>)
    requires cfg.Valid() && s.Shape(cfg) && c < |cfg.budget| && i < |v| && (op.Burst? ==> i < |op.x|)
  {
    && Looks(cfg, t, c, v[i := Result(op, i, v[i])])
    && t.now == s.now
    && t.usage[c] == s.usage[c] + Gain(op, v[i])
    && (op.Burst? || op.Leave? || op.LeaveOver? ==> t.count == s.count)
    && (op.Enter? && NoneStopped(cfg, s, c) ==> NoneStopped(cfg, t, c))
    && Allows(cfg, t, c, op)
  }

  ghost predicate CanVisit(cfg: Config, c: nat, e: nat, gpu: Gpu, r: Run, s: State, v: seq<View>, op: Op, i: nat)
    requires cfg.Valid() && c < |cfg.budget|
  {
    && Reached(cfg, c, e, gpu, r, s) && Looks(cfg, s, c, v) && cfg.In(i, c) && i < |v|
    && Ready(op, i, v[i], e) && Allows(cfg, s, c, op) && (op.Open? ==> gpu.received == 0)
    && (op.Enter? ==> -TWO_31 <= s.usage[c] && s.usage[c] + v[i].residue < TWO_31)
  }

  lemma VisitBurst(cfg: Config, c: nat, e: nat, gpu: Gpu, r: Run, s: State, v: seq<View>, op: Op, i: nat)
      returns (q: Run, t: State)
    requires cfg.Valid() && c < |cfg.budget| && op.Burst? && CanVisit(cfg, c, e, gpu, r, s, v, op, i)
    ensures Reached(cfg, c, e, gpu, q, t) && Visited(cfg, s, t, c, op, i, v)
  {
    t := Apply(cfg, s, Events(i, op.x[i]));
    q := Extend(cfg, c, e, gpu, r, s, Events(i, op.x[i]));
  }

  lemma VisitCheck(cfg: Config, c: nat, e: nat, gpu: Gpu, r: Run, s: State, v: seq<View>, op: Op, i: nat)
      returns (q: Run, t: State)
    requires cfg.Valid() && c < |cfg.budget| && (op.Leave? || op.LeaveOver?) && CanVisit(cfg, c, e, gpu, r, s, v, op, i)
    ensures Reached(cfg, c, e, gpu, q, t) && Visited(cfg, s, t, c, op, i, v)
  {
    t := Apply(cfg, s, Check(i));
    q := Extend(cfg, c, e, gpu, r, s, Check(i));
  }

  /** A core whose tick is due gets as far as the branch of its callback. */
  lemma Fire(cfg: Config, c: nat, e: nat, gpu: Gpu, r: Run, s: State, i: nat, tick: nat) returns (q: Run, t: State)
    requires cfg.Valid() && c < |cfg.budget| && Reached(cfg, c, e, gpu, r, s) && cfg.In(i, c) && s.Shape(cfg)
    requires s.cores[i].pc.Idle? && s.cores[i].local + 1 == tick && !s.cores[i].ipi
    requires tick - 1 <= s.count <= tick && cfg.start + (tick - 1) * cfg.periodNs <= s.now
    ensures Reached(cfg, c, e, gpu, q, t)
    ensures t == s.(count := tick, cores := s.cores[i :=
      s.cores[i].(pc := Fetched, local := tick, due := cfg.start + tick * cfg.periodNs)])
  {
    Periods.ArmedInEveryRun(cfg, r, |r.actions|, c);
    q := Extend(cfg, c, e, gpu, r, s, Swap(i));
    var u := Apply(cfg, s, Swap(i));
    t := Apply(cfg, u, Fetch(i));
    q := Extend(cfg, c, e, gpu, q, u, Fetch(i));
  }

  lemma VisitEnter(cfg: Config, c: nat, e: nat, gpu: Gpu, r: Run, s: State, v: seq<View>, op: Op, i: nat)
      returns (q: Run, t: State)
    requires cfg.Valid() && c < |cfg.budget| && op.Enter? && CanVisit(cfg, c, e, gpu, r, s, v, op, i)
    ensures Reached(cfg, c, e, gpu, q, t) && Visited(cfg, s, t, c, op, i, v)
  {
    var u;
    q, u := Fire(cfg, c, e, gpu, r, s, i, op.tick);
    t := Apply(cfg, u, Charge(i));
    q := Extend(cfg, c, e, gpu, q, u, Charge(i));
    WrapBelow(s.usage[c] + v[i].residue);
    assert forall j :: cfg.In(j, c) ==> t.cores[j].Stopped() == s.cores[j].Stopped();
  }

  lemma VisitOpen(cfg: Config, c: nat, e: nat, gpu: Gpu, r: Run, s: State, v: seq<View>, op: Op, i: nat)
      returns (q: Run, t: State)
    requires cfg.Valid() && cfg.interval >= 2 && c < |cfg.budget|
    requires op.Open? && CanVisit(cfg, c, e, gpu, r, s, v, op, i)
    ensures Reached(cfg, c, e, gpu, q, t) && Visited(cfg, s, t, c, op, i, v)
  {
    Periods.ArmedInEveryRun(cfg, r, |r.actions|, c);
    var u;
    q, u := Fire(cfg, c, e, gpu, r, s, i, 1);
    t := Apply(cfg, u, Regulate(i));
    q := Extend(cfg, c, e, gpu, q, u, Regulate(i));
  }

  lemma Visit(cfg: Config, c: nat, e: nat, gpu: Gpu, r: Run, s: State, v: seq<View>, op: Op, i: nat)
      returns (q: Run, t: State)
    requires cfg.Valid() && cfg.interval >= 2 && c < |cfg.budget| && CanVisit(cfg, c, e, gpu, r, s, v, op, i)
    ensures Reached(cfg, c, e, gpu, q, t) && Visited(cfg, s, t, c, op, i, v)
  {
    match op
    case Burst(_) => q, t := VisitBurst(cfg, c, e, gpu, r, s, v, op, i);
    case Open => q, t := VisitOpen(cfg, c, e, gpu, r, s, v, op, i);
    case Enter(_) => q, t := VisitEnter(cfg, c, e, gpu, r, s, v, op, i);
    case _ => q, t := VisitCheck(cfg, c, e, gpu, r, s, v, op, i);
  }

  // ---------- sweeps over the cluster ----------

  /** The residues of the cluster's cores from `lo` to `hi`. */
  function Sum(cfg: Config, c: nat, y: seq<int>, lo: nat, hi: nat): int
    requires lo <= hi <= |y|
  {
    if lo == hi then 0 else Sum(cfg, c, y, lo, hi - 1) + if cfg.In(hi - 1, c) then y[hi - 1] else 0
  }

  function Residual(v: seq<View>): (y: seq<int>)
    ensures |y| == |v| && forall j :: 0 <= j < |v| ==> y[j] == v[j].residue
  {
    seq(|v|, j requires 0 <= j < |v| => v[j].residue)
  }

  ghost predicate Swept(cfg: Config, c: nat, op: Op, v: seq<View>, w: seq<View>, lo: nat, hi: nat)
    requires op.Burst? ==> |op.x| == |v|
  {
    && |w| == |v|
    && forall j :: 0 <= j < |v| && cfg.In(j, c) ==> w[j] == if lo <= j < hi then Result(op, j, v[j]) else v[j]
  }

  /** What a sweep from `s` leads to. */
  ghost predicate SweptState(cfg: Config, s: State, t: State, c: nat, op: Op, v: seq<View>, lo: nat, hi: nat)
    requires cfg.Valid() && s.Shape(cfg) && c < |cfg.budget| && lo <= hi <= |v|
  {
    && t.Shape(cfg) && t.now == s.now
    && t.usage[c] == s.usage[c] + (if op.Enter? then Sum(cfg, c, Residual(v), lo, hi) else 0)
    && s.usage[c] <= t.usage[c]
    && (op.Burst? || op.Leave? || op.LeaveOver? ==> t.count == s.count)
    && (op.Enter? && NoneStopped(cfg, s, c) ==> NoneStopped(cfg, t, c))
    && Allows(cfg, t, c, op)
  }

  ghost predicate CanSweep(
      cfg: Config, c: nat, e: nat, gpu: Gpu, r: Run, s: State, v: seq<View>, op: Op, lo: nat, hi: nat)
  {
    && cfg.Valid() && cfg.interval >= 2 && c < |cfg.budget|
    && Reached(cfg, c, e, gpu, r, s) && Looks(cfg, s, c, v) && Allows(cfg, s, c, op)
    && lo <= hi <= |v| && (op.Burst? ==> |op.x| == |v|) && (op.Open? ==> gpu.received == 0)
    && (forall j :: lo <= j < hi && cfg.In(j, c) ==> Ready(op, j, v[j], e))
    && (op.Enter? ==> -TWO_31 <= s.usage[c] && s.usage[c] + Sum(cfg, c, Residual(v), lo, hi) < TWO_31)
  }

  lemma {:induction false} Sweep(
      cfg: Config, c: nat, e: nat, gpu: Gpu, r: Run, s: State, v: seq<View>, op: Op, lo: nat, hi: nat)
      returns (q: Run, t: State, w: seq<View>)
    requires CanSweep(cfg, c, e, gpu, r, s, v, op, lo, hi)
    ensures Reached(cfg, c, e, gpu, q, t) && Looks(cfg, t, c, w) && Swept(cfg, c, op, v, w, lo, hi)
    ensures SweptState(cfg, s, t, c, op, v, lo, hi)
    decreases hi
  {
    if lo == hi {
      q, t, w := r, s, v;
    } else {
      assert cfg.In(hi - 1, c) ==> Ready(op, hi - 1, v[hi - 1], e);
      q, t, w := Sweep(cfg, c, e, gpu, r, s, v, op, lo, hi - 1);
      if cfg.In(hi - 1, c) {
        var u := t;
        q, t := Visit(cfg, c, e, gpu, q, u, w, op, hi - 1);
        w := w[hi - 1 := Result(op, hi - 1, w[hi - 1])];
      }
    }
  }

  lemma {:induction false} Deliveries(cfg: Config, c: nat, e: nat, gpu: Gpu, r: Run, s: State, v: seq<View>, n: nat)
      returns (q: Run, t: State)
    requires cfg.Valid() && c < |cfg.budget| && Reached(cfg, c, e, gpu, r, s) && Looks(cfg, s, c, v) && n <= |v|
    ensures Reached(cfg, c, e, gpu, q, t) && Looks(cfg, t, c, v)
    ensures t.now == s.now && t.count == s.count && t.usage == s.usage
    ensures forall j :: cfg.In(j, c) && j < n ==> !t.cores[j].ipi
  {
    if n == 0 {
      q, t := r, s;
    } else {
      q, t := Deliveries(cfg, c, e, gpu, r, s, v, n - 1);
      if t.cores[n - 1].ipi {
        q := Extend(cfg, c, e, gpu, q, t, Deliver(n - 1));
        t := Apply(cfg, t, Deliver(n - 1));
      }
    }
  }

  /** Every core of the cluster has finished tick `K`, and tick K + 1 is not due yet. */
  ghost predicate Rests(cfg: Config, s: State, c: nat, v: seq<View>, K: nat) {
    && Looks(cfg, s, c, v) && K >= 1 && s.count == K && s.now == cfg.start + (K - 1) * cfg.periodNs
    && forall j :: 0 <= j < |v| && cfg.In(j, c) ==> v[j].pc.Idle? && v[j].local == K
  }

  lemma Pass(cfg: Config, c: nat, e: nat, gpu: Gpu, r: Run, s: State, v: seq<View>, K: nat) returns (q: Run, t: State)
    requires cfg.Valid() && c < |cfg.budget| && Reached(cfg, c, e, gpu, r, s) && Rests(cfg, s, c, v, K)
    ensures Reached(cfg, c, e, gpu, q, t) && t == s.(now := cfg.start + K * cfg.periodNs)
  {
    assert (K - 1) * cfg.periodNs + cfg.periodNs == K * cfg.periodNs;
    assert (K + 1) * cfg.periodNs == K * cfg.periodNs + cfg.periodNs;
    t := Apply(cfg, s, Advance(cfg.periodNs));
    q := Extend(cfg, c, e, gpu, r, s, Advance(cfg.periodNs));
  }

  lemma CountReaches(cfg: Config, c: nat, e: nat, gpu: Gpu, r: Run, s: State, i: nat)
    requires cfg.Valid() && c < |cfg.budget| && Reached(cfg, c, e, gpu, r, s) && cfg.In(i, c) && s.Shape(cfg)
    ensures s.count >= s.cores[i].local
  {
    TickCounter.TicksInEveryRun(cfg, r, |r.actions|);
  }

  /** The cores from `lo` to `hi` go through tick `K` without exceeding the budget. */
  ghost predicate Served(cfg: Config, c: nat, v: seq<View>, w: seq<View>, K: nat, lo: nat, hi: nat) {
    && |w| == |v|
    && forall j :: 0 <= j < |v| && cfg.In(j, c) ==> w[j] == if lo <= j < hi then View(Idle, K, 0, 0) else v[j]
  }

  lemma Serve(cfg: Config, c: nat, e: nat, gpu: Gpu, r: Run, s: State, v: seq<View>, K: nat, lo: nat, hi: nat)
      returns (q: Run, t: State, w: seq<View>)
    requires CanSweep(cfg, c, e, gpu, r, s, v, Enter(K), lo, hi) && NoneStopped(cfg, s, c)
    requires s.usage[c] + Sum(cfg, c, Residual(v), lo, hi) <= cfg.budget[c]
    ensures Reached(cfg, c, e, gpu, q, t) && Looks(cfg, t, c, w) && NoneStopped(cfg, t, c)
    ensures Served(cfg, c, v, w, K, lo, hi)
    ensures t.usage[c] == s.usage[c] + Sum(cfg, c, Residual(v), lo, hi)
    ensures t.now == s.now && K - 1 <= t.count <= K
  {
    var u, x;
    q, u, x := Sweep(cfg, c, e, gpu, r, s, v, Enter(K), lo, hi);
    forall j | lo <= j < hi && cfg.In(j, c)
      ensures Ready(Leave, j, x[j], e)
    {
      assert x[j] == Result(Enter(K), j, v[j]);
    }
    q, t, w := Sweep(cfg, c, e, gpu, q, u, x, Leave, lo, hi);
  }

  /** Up to the first aggregation tick, with demands `x` before the regulation tick and `y` after, and
      receivers that have taken off all they may. */
  lemma AfterReset(cfg: Config, c: nat, e: nat, gpu: Gpu, x: seq<nat>, y: seq<nat>)
      returns (r: Run, s: State, v: seq<View>)
    requires AtLowest(cfg, c, e, gpu)
    requires |x| == |y| == |cfg.clusterOf| && forall j :: 0 <= j < |x| ==> x[j] <= e && y[j] <= e
    ensures Reached(cfg, c, e, gpu, r, s) && Looks(cfg, s, c, v)
    ensures forall j :: 0 <= j < |v| && cfg.In(j, c) ==> v[j] == View(Idle, 1, x[j] + y[j], y[j])
    ensures NoneStopped(cfg, s, c) && s.usage[c] == gpu.received
    ensures s.count == 1 && s.now == cfg.start + cfg.periodNs
  {
    var clean := gpu.(received := 0);
    var q, u, w := FirstTickOver(cfg, c, e, clean, x);
    q, u, w := Sweep(cfg, c, e, clean, q, u, w, Burst(y), 0, |w|);
    q, u := Pass(cfg, c, e, clean, q, u, w, 1);
    s, v := Apply(cfg, u, GpuAdd(c, gpu.received)), w;
    r := Extend(cfg, c, e, clean, q, u, GpuAdd(c, gpu.received));
    WrapBelow(gpu.received);
  }

  lemma FirstTickOver(cfg: Config, c: nat, e: nat, gpu: Gpu, x: seq<nat>) returns (r: Run, s: State, v: seq<View>)
    requires Ruled(cfg, c) && gpu.received == 0
    requires |x| == |cfg.clusterOf| && forall j :: 0 <= j < |x| ==> x[j] <= e
    ensures Reached(cfg, c, e, gpu, r, s) && Rests(cfg, s, c, v, 1)
    ensures forall j :: 0 <= j < |v| && cfg.In(j, c) ==> v[j] == View(Idle, 1, x[j], 0)
    ensures NoneStopped(cfg, s, c) && s.usage[c] == 0
  {
    r := Start(cfg, c, e, gpu);
    s := Init(cfg);
    v := seq(|cfg.clusterOf|, j => View(Idle, 0, 0, 0));
    r, s, v := Sweep(cfg, c, e, gpu, r, s, v, Burst(x), 0, |v|);
    r, s, v := Sweep(cfg, c, e, gpu, r, s, v, Open, 0, |v|);
    CountReaches(cfg, c, e, gpu, r, s, cfg.leader[c]);
  }

  // ---------- demands ----------

  lemma {:induction false} SumConstant(cfg: Config, c: nat, y: seq<int>, lo: nat, hi: nat, a: int)
    requires lo <= hi <= |y| <= |cfg.clusterOf|
    requires forall j :: lo <= j < hi && cfg.In(j, c) ==> y[j] == a
    ensures Sum(cfg, c, y, lo, hi) == (Size(cfg, c, hi) - Size(cfg, c, lo)) * a
    decreases hi
  {
    if lo < hi {
      SumConstant(cfg, c, y, lo, hi - 1, a);
      var m := Size(cfg, c, hi - 1) - Size(cfg, c, lo);
      if cfg.In(hi - 1, c) { OneMore(m, a); }
    }
  }

  lemma {:induction false} SumOfTwo(cfg: Config, c: nat, y: seq<int>, a: seq<int>, b: seq<int>, lo: nat, hi: nat)
    requires lo <= hi <= |y| && hi <= |a| && hi <= |b|
    requires forall j :: lo <= j < hi && cfg.In(j, c) ==> y[j] == a[j] + b[j]
    ensures Sum(cfg, c, y, lo, hi) == Sum(cfg, c, a, lo, hi) + Sum(cfg, c, b, lo, hi)
    decreases hi
  {
    if lo < hi { SumOfTwo(cfg, c, y, a, b, lo, hi - 1); }
  }

  lemma {:induction false} SumSame(cfg: Config, c: nat, y: seq<int>, z: seq<int>, lo: nat, hi: nat)
    requires lo <= hi <= |y| && hi <= |z|
    requires forall j :: lo <= j < hi && cfg.In(j, c) ==> y[j] == z[j]
    ensures Sum(cfg, c, y, lo, hi) == Sum(cfg, c, z, lo, hi)
    decreases hi
  {
    if lo < hi { SumSame(cfg, c, y, z, lo, hi - 1); }
  }

  /** `total` events spread over the cluster's first cores, at most `cap` each. */
  function Spread(cfg: Config, c: nat, cap: nat, total: nat, n: nat): (x: seq<nat>)
    ensures |x| == n && forall j :: 0 <= j < n ==> x[j] <= cap
    decreases n
  {
    if n == 0 then []
    else
      var x := Spread(cfg, c, cap, total, n - 1);
      var left := total - Sum(cfg, c, x, 0, n - 1);
      x + [if left <= 0 then 0 else if left <= cap then left else cap]
  }

  lemma {:induction false} SpreadSum(cfg: Config, c: nat, cap: nat, total: nat, n: nat)
    requires n <= |cfg.clusterOf|
    ensures Sum(cfg, c, Spread(cfg, c, cap, total, n), 0, n) == Min(total, Size(cfg, c, n) * cap)
  {
    if n > 0 {
      SpreadSum(cfg, c, cap, total, n - 1);
      var x, z := Spread(cfg, c, cap, total, n - 1), Spread(cfg, c, cap, total, n);
      SumSame(cfg, c, x, z, 0, n - 1);
      OneMore(Size(cfg, c, n - 1), cap);
    }
  }

  lemma {:induction false} PrefixOf(cfg: Config, c: nat, j: nat, n: nat) returns (h: nat)
    requires n <= |cfg.clusterOf| && j <= Size(cfg, c, n)
    ensures h <= n && Size(cfg, c, h) == j
  {
    if j == Size(cfg, c, n) { h := n; } else { h := PrefixOf(cfg, c, j, n - 1); }
  }

  function Full(cfg: Config, e: nat): (x: seq<nat>)
    ensures |x| == |cfg.clusterOf| && forall j :: 0 <= j < |x| ==> x[j] == e
  {
    seq(|cfg.clusterOf|, j => e)
  }

  /** Two demands per core: the first cores together `total`, the others all they may. */
  lemma TwoIntervals(cfg: Config, c: nat, e: nat, h: nat, total: nat) returns (x: seq<nat>, y: seq<nat>)
    requires h <= |cfg.clusterOf| && total <= 2 * (Size(cfg, c, h) * e)
    ensures |x| == |y| == |cfg.clusterOf| && forall j :: 0 <= j < |x| ==> x[j] <= e && y[j] <= e
    ensures forall j :: h <= j < |x| ==> x[j] == y[j] == e
    ensures Sum(cfg, c, x, 0, h) + Sum(cfg, c, y, 0, h) == total
  {
    var m := Size(cfg, c, h) * e;
    var rest := if total <= m then 0 else total - m;
    var a, b := Spread(cfg, c, e, total, h), Spread(cfg, c, e, rest, h);
    SpreadSum(cfg, c, e, total, h);
    SpreadSum(cfg, c, e, rest, h);
    x, y := a + Full(cfg, e)[h..], b + Full(cfg, e)[h..];
    SumSame(cfg, c, x, a, 0, h);
    SumSame(cfg, c, y, b, 0, h);
  }

  // ---------- the scripts ----------

  /** Tick 2 is due for every core; all but the first `h` have two intervals to charge. */
  ghost predicate SecondTick(cfg: Config, s: State, c: nat, e: nat, v: seq<View>, h: nat) {
    && Looks(cfg, s, c, v) && NoneStopped(cfg, s, c) && h <= |v|
    && s.count == 1 && s.now == cfg.start + cfg.periodNs
    && forall j :: 0 <= j < |v| && cfg.In(j, c) ==>
         v[j].pc.Idle? && v[j].local == 1 && v[j].residue >= 0 && (j >= h ==> v[j] == View(Idle, 1, 2 * e, e))
  }

  lemma SecondTickDue(cfg: Config, c: nat, e: nat, gpu: Gpu, h: nat, first: nat)
      returns (r: Run, s: State, v: seq<View>)
    requires AtLowest(cfg, c, e, gpu) && h <= |cfg.clusterOf| && first <= 2 * (Size(cfg, c, h) * e)
    ensures Reached(cfg, c, e, gpu, r, s) && SecondTick(cfg, s, c, e, v, h)
    ensures Sum(cfg, c, Residual(v), 0, h) == first && s.usage[c] == gpu.received
  {
    var x, y := TwoIntervals(cfg, c, e, h, first);
    r, s, v := AfterReset(cfg, c, e, gpu, x, y);
    SumOfTwo(cfg, c, Residual(v), x, y, 0, h);
  }

  /** The first `h` cores charge their events in tick 2 and have one more interval; the others still
      have two intervals to charge. */
  lemma FinishFirst(cfg: Config, c: nat, e: nat, gpu: Gpu, r: Run, s: State, v: seq<View>, h: nat)
      returns (q: Run, t: State, w: seq<View>)
    requires Ruled(cfg, c) && cfg.interval >= 3
    requires Reached(cfg, c, e, gpu, r, s) && SecondTick(cfg, s, c, e, v, h)
    requires -TWO_31 <= s.usage[c] && s.usage[c] + Sum(cfg, c, Residual(v), 0, h) <= cfg.budget[c]
    ensures Reached(cfg, c, e, gpu, q, t) && Looks(cfg, t, c, w) && NoneStopped(cfg, t, c)
    ensures forall j :: 0 <= j < |w| && cfg.In(j, c) ==>
      w[j] == if j < h then View(Idle, 2, e, e) else View(Idle, 1, 2 * e, e)
    ensures t.usage[c] == s.usage[c] + Sum(cfg, c, Residual(v), 0, h) && t.now == s.now && 1 <= t.count <= 2
  {
    ThirdTick(cfg);
    assert NoInterrupt(cfg, s, c);
    q, t, w := Serve(cfg, c, e, gpu, r, s, v, 2, 0, h);
    assert forall j :: h <= j < |w| && cfg.In(j, c) ==> w[j] == v[j];
    q, t, w := AnotherInterval(cfg, c, e, gpu, q, t, w, 2, h);
  }

  lemma AnotherInterval(cfg: Config, c: nat, e: nat, gpu: Gpu, r: Run, s: State, v: seq<View>, K: nat, h: nat)
      returns (q: Run, t: State, w: seq<View>)
    requires Ruled(cfg, c) && Reached(cfg, c, e, gpu, r, s)
    requires Looks(cfg, s, c, v) && NoneStopped(cfg, s, c)
    requires h <= |v| && forall j :: 0 <= j < h && cfg.In(j, c) ==> v[j] == View(Idle, K, 0, 0)
    ensures Reached(cfg, c, e, gpu, q, t) && Looks(cfg, t, c, w) && NoneStopped(cfg, t, c) && |w| == |v|
    ensures forall j :: 0 <= j < |v| && cfg.In(j, c) ==> w[j] == if j < h then View(Idle, K, e, e) else v[j]
    ensures t.usage[c] == s.usage[c] && t.count == s.count && t.now == s.now
  {
    q, t, w := Sweep(cfg, c, e, gpu, r, s, v, Burst(Full(cfg, e)), 0, h);
  }

  lemma SizeMono(cfg: Config, c: nat, h: nat, n: nat)
    requires h <= n <= |cfg.clusterOf|
    ensures Size(cfg, c, h) <= Size(cfg, c, n)
    decreases n
  {
    if h < n { SizeMono(cfg, c, h, n - 1); }
  }

  /** After that the others finish tick 2 as well, and tick 3 is due. */
  lemma FinishOthers(cfg: Config, c: nat, e: nat, gpu: Gpu, r: Run, s: State, v: seq<View>, h: nat)
      returns (q: Run, t: State, w: seq<View>)
    requires Ruled(cfg, c) && cfg.interval >= 3
    requires Reached(cfg, c, e, gpu, r, s) && Looks(cfg, s, c, v) && NoneStopped(cfg, s, c) && h <= |v|
    requires forall j :: 0 <= j < |v| && cfg.In(j, c) ==>
      v[j] == if j < h then View(Idle, 2, e, e) else View(Idle, 1, 2 * e, e)
    requires 1 <= s.count <= 2 && s.now == cfg.start + cfg.periodNs
    requires -TWO_31 <= s.usage[c] && s.usage[c] + Sum(cfg, c, Residual(v), h, |v|) < TWO_31
    ensures Reached(cfg, c, e, gpu, q, t) && Looks(cfg, t, c, w) && NoInterrupt(cfg, t, c)
    ensures forall j :: 0 <= j < |w| && cfg.In(j, c) ==>
      w[j] == if j < h then View(Idle, 2, e, e) else View(Idle, 2, 0, 0)
    ensures t.count == 2 && t.now == cfg.start + 2 * cfg.periodNs
    ensures t.usage[c] == s.usage[c] + Sum(cfg, c, Residual(v), h, |v|)
  {
    var n := |v|;
    ThirdTick(cfg);
    assert NoInterrupt(cfg, s, c);
    q, t, w := Sweep(cfg, c, e, gpu, r, s, v, Enter(2), h, n);
    q, t, w := Sweep(cfg, c, e, gpu, q, t, w, LeaveOver, h, n);
    q, t := Deliveries(cfg, c, e, gpu, q, t, w, n);
    CountReaches(cfg, c, e, gpu, q, t, cfg.leader[c]);
    q, t := Pass(cfg, c, e, gpu, q, t, w, 2);
  }

  lemma OthersCharge(cfg: Config, c: nat, e: nat, v: seq<View>, h: nat)
    requires h <= |v| == |cfg.clusterOf|
    requires forall j :: h <= j < |v| && cfg.In(j, c) ==> v[j].residue == 2 * e
    ensures Sum(cfg, c, Residual(v), h, |v|) == 2 * (Cores(cfg, c) * e) - 2 * (Size(cfg, c, h) * e)
    ensures Size(cfg, c, h) * e <= Cores(cfg, c) * e
  {
    SumConstant(cfg, c, Residual(v), h, |v|, 2 * e);
    SizeMono(cfg, c, h, |v|);
    Regrouping(Cores(cfg, c), Size(cfg, c, h), e);
  }

  lemma SecondTickOver(cfg: Config, c: nat, e: nat, gpu: Gpu, h: nat, first: nat)
      returns (r: Run, s: State, v: seq<View>)
    requires AtLowest(cfg, c, e, gpu) && cfg.interval >= 3 && h <= |cfg.clusterOf|
    requires first <= 2 * (Size(cfg, c, h) * e) && first <= Cap(cfg, c, gpu.low)
    ensures Reached(cfg, c, e, gpu, r, s) && Looks(cfg, s, c, v)
    ensures forall j :: 0 <= j < |v| && cfg.In(j, c) ==>
      v[j] == if j < h then View(Idle, 2, e, e) else View(Idle, 2, 0, 0)
    ensures NoInterrupt(cfg, s, c) && s.count == 2 && s.now == cfg.start + 2 * cfg.periodNs
    ensures s.usage[c] == gpu.received + first + 2 * (Cores(cfg, c) * e) - 2 * (Size(cfg, c, h) * e)
  {
    r, s, v := SecondTickDue(cfg, c, e, gpu, h, first);
    r, s, v := FinishFirst(cfg, c, e, gpu, r, s, v, h);
    OthersCharge(cfg, c, e, v, h);
    r, s, v := FinishOthers(cfg, c, e, gpu, r, s, v, h);
  }

  /** The cluster is throttled in the first tick, with `j` cores finished. */
  lemma EarlyIsReached(cfg: Config, c: nat, e: nat, gpu: Gpu, j: nat) returns (r: Run, s: State)
    requires AtLowest(cfg, c, e, gpu) && cfg.interval >= 3 && j < Cores(cfg, c)
    ensures Reached(cfg, c, e, gpu, r, s) && s.Shape(cfg)
    ensures s.usage[c] == Early(Cores(cfg, c), e, Cap(cfg, c, gpu.low), j) + gpu.received
  {
    var n, b := |cfg.clusterOf|, Cap(cfg, c, gpu.low);
    var h := PrefixOf(cfg, c, j, n);
    var v;
    r, s, v := SecondTickOver(cfg, c, e, gpu, h, Min(2 * (j * e), b));
    SumConstant(cfg, c, Residual(v), 0, h, e);
    ThirdTick(cfg);
    Regrouping(Cores(cfg, c), j, e);
    r, s, v := Sweep(cfg, c, e, gpu, r, s, v, Enter(3), 0, h);
  }

  lemma ThirdTick(cfg: Config)
    requires cfg.interval >= 3
    ensures !IsRegulation(cfg, 2) && !IsRegulation(cfg, 3)
  {
  }

  lemma Regrouping(n: nat, j: nat, e: nat)
    requires j <= n
    ensures (n - j) * (2 * e) == 2 * (n * e) - 2 * (j * e)
    ensures 0 <= j * e <= n * e
  {
    Twice(n - j, e);
    assert (n - j) * e == n * e - j * e;
    MulLe(j, n, e);
  }

  /** With two ticks per period: every core has two intervals to charge. */
  lemma TwoTickWorst(cfg: Config, c: nat, e: nat, gpu: Gpu) returns (r: Run, s: State)
    requires AtLowest(cfg, c, e, gpu) && cfg.interval == 2
    ensures Reached(cfg, c, e, gpu, r, s) && s.Shape(cfg) && s.usage[c] == 2 * (Cores(cfg, c) * e) + gpu.received
  {
    var n, v := |cfg.clusterOf|, [];
    r, s, v := AfterReset(cfg, c, e, gpu, Full(cfg, e), Full(cfg, e));
    SumConstant(cfg, c, Residual(v), 0, n, 2 * e);
    Twice(Cores(cfg, c), e);
    r, s, v := Sweep(cfg, c, e, gpu, r, s, v, Enter(2), 0, n);
  }

  /** A tick in which the cores charge up to the budget, nobody being throttled: a state from which
      the next tick can start. */
  ghost predicate Refilled(cfg: Config, s: State, c: nat, v: seq<View>, K: nat)
    requires cfg.Valid()
  {
    && Rests(cfg, s, c, v, K) && NoneStopped(cfg, s, c)
    && forall j :: 0 <= j < |v| && cfg.In(j, c) ==> v[j].residue == v[j].gen == 0
  }

  lemma {:induction false} TickWithin(cfg: Config, c: nat, e: nat, gpu: Gpu, r: Run, s: State, v: seq<View>, K: nat)
      returns (q: Run, t: State, w: seq<View>)
    requires Ruled(cfg, c) && Reached(cfg, c, e, gpu, r, s)
    requires Looks(cfg, s, c, v) && NoneStopped(cfg, s, c)
    requires 2 <= K && !IsRegulation(cfg, K) && s.count == K - 1 && s.now == cfg.start + (K - 1) * cfg.periodNs
    requires forall j :: 0 <= j < |v| && cfg.In(j, c) ==> v[j].pc.Idle? && v[j].local == K - 1 && v[j].residue >= 0
    requires -TWO_31 <= s.usage[c] && s.usage[c] + Sum(cfg, c, Residual(v), 0, |v|) <= cfg.budget[c]
    ensures Reached(cfg, c, e, gpu, q, t) && Refilled(cfg, t, c, w, K)
    ensures t.usage[c] == s.usage[c] + Sum(cfg, c, Residual(v), 0, |v|)
  {
    assert NoInterrupt(cfg, s, c);
    q, t, w := Serve(cfg, c, e, gpu, r, s, v, K, 0, |v|);
    TickFinished(cfg, c, e, gpu, q, t, v, w, K);
  }

  lemma TickFinished(cfg: Config, c: nat, e: nat, gpu: Gpu, r: Run, s: State, v: seq<View>, w: seq<View>, K: nat)
    requires Ruled(cfg, c) && Reached(cfg, c, e, gpu, r, s)
    requires Looks(cfg, s, c, w) && NoneStopped(cfg, s, c) && Served(cfg, c, v, w, K, 0, |v|)
    requires 1 <= K && K - 1 <= s.count <= K && s.now == cfg.start + (K - 1) * cfg.periodNs
    ensures Refilled(cfg, s, c, w, K)
  {
    assert w[cfg.leader[c]] == View(Idle, K, 0, 0);
    CountReaches(cfg, c, e, gpu, r, s, cfg.leader[c]);
  }

  lemma LaterTick(cfg: Config, K: nat)
    requires 2 <= K <= cfg.interval
    ensures !IsRegulation(cfg, K)
  {
    if K == cfg.interval { DivUnique(K, cfg.interval, 1, 0); }
  }

  lemma {:induction false} Climb(cfg: Config, c: nat, e: nat, gpu: Gpu, K: nat) returns (r: Run, s: State, v: seq<View>)
    requires AtLowest(cfg, c, e, gpu) && 2 <= K < cfg.interval
    ensures Reached(cfg, c, e, gpu, r, s) && Refilled(cfg, s, c, v, K)
    ensures s.usage[c] == Min(Cap(cfg, c, gpu.low), K * (Cores(cfg, c) * e)) + gpu.received
    decreases K
  {
    LaterTick(cfg, K);
    if K == 2 {
      r, s, v := ClimbStart(cfg, c, e, gpu);
    } else {
      var q, u, w := Climb(cfg, c, e, gpu, K - 1);
      r, s, v := ClimbStep(cfg, c, e, gpu, q, u, w, K - 1);
    }
  }

  lemma NextMin(b: int, N: nat, K: nat)
    requires b >= 0
    ensures Min(b, Min(b, K * N) + N) == Min(b, (K + 1) * N) && 0 <= K * N
  {
    MulLe(0, K, N);
    OneMore(K, N);
  }

  lemma ClimbStart(cfg: Config, c: nat, e: nat, gpu: Gpu) returns (r: Run, s: State, v: seq<View>)
    requires AtLowest(cfg, c, e, gpu) && 2 < cfg.interval && !IsRegulation(cfg, 2)
    ensures Reached(cfg, c, e, gpu, r, s) && Refilled(cfg, s, c, v, 2)
    ensures s.usage[c] == Min(Cap(cfg, c, gpu.low), 2 * (Cores(cfg, c) * e)) + gpu.received
  {
    MulLe(0, Cores(cfg, c), e);
    var first := Min(Cap(cfg, c, gpu.low), 2 * (Cores(cfg, c) * e));
    var q, u, w := SecondTickDue(cfg, c, e, gpu, |cfg.clusterOf|, first);
    r, s, v := TickWithin(cfg, c, e, gpu, q, u, w, 2);
  }

  lemma ClimbStep(cfg: Config, c: nat, e: nat, gpu: Gpu, r: Run, s: State, v: seq<View>, K: nat)
      returns (q: Run, t: State, w: seq<View>)
    requires AtLowest(cfg, c, e, gpu) && 2 <= K && !IsRegulation(cfg, K + 1)
    requires Reached(cfg, c, e, gpu, r, s) && Refilled(cfg, s, c, v, K)
    requires s.usage[c] == Min(Cap(cfg, c, gpu.low), K * (Cores(cfg, c) * e)) + gpu.received
    ensures Reached(cfg, c, e, gpu, q, t) && Refilled(cfg, t, c, w, K + 1)
    ensures t.usage[c] == Min(Cap(cfg, c, gpu.low), (K + 1) * (Cores(cfg, c) * e)) + gpu.received
  {
    NextMin(Cap(cfg, c, gpu.low), Cores(cfg, c) * e, K);
    q, t, w := ClimbOn(cfg, c, e, gpu, r, s, v, K);
  }

  lemma ClimbOn(cfg: Config, c: nat, e: nat, gpu: Gpu, r: Run, s: State, v: seq<View>, K: nat)
      returns (q: Run, t: State, w: seq<View>)
    requires Ruled(cfg, c) && Reached(cfg, c, e, gpu, r, s) && Refilled(cfg, s, c, v, K)
    requires 2 <= K && !IsRegulation(cfg, K + 1) && -TWO_31 <= s.usage[c] <= cfg.budget[c]
    ensures Reached(cfg, c, e, gpu, q, t) && Refilled(cfg, t, c, w, K + 1)
    ensures t.usage[c] == Min(cfg.budget[c], s.usage[c] + Cores(cfg, c) * e)
  {
    var p, u, x := SpendMore(cfg, c, e, gpu, r, s, v, K);
    q, t, w := TickWithin(cfg, c, e, gpu, p, u, x, K + 1);
  }

  /** The cores generate what is left of the budget, or as much as they may. */
  lemma SpendMore(cfg: Config, c: nat, e: nat, gpu: Gpu, r: Run, s: State, v: seq<View>, K: nat)
      returns (q: Run, t: State, w: seq<View>)
    requires Ruled(cfg, c) && Reached(cfg, c, e, gpu, r, s) && Refilled(cfg, s, c, v, K)
    requires s.usage[c] <= cfg.budget[c]
    ensures Reached(cfg, c, e, gpu, q, t) && Looks(cfg, t, c, w) && NoneStopped(cfg, t, c)
    ensures forall j :: 0 <= j < |w| && cfg.In(j, c) ==> w[j].pc.Idle? && w[j].local == K && w[j].residue >= 0
    ensures Sum(cfg, c, Residual(w), 0, |w|) == Min(cfg.budget[c] - s.usage[c], Cores(cfg, c) * e)
    ensures t.usage[c] == s.usage[c] && t.count == K && t.now == cfg.start + K * cfg.periodNs
  {
    var n, left := |cfg.clusterOf|, cfg.budget[c] - s.usage[c];
    q, t, w := NextInterval(cfg, c, e, gpu, r, s, v, K, Spread(cfg, c, e, left, n));
    SpreadSum(cfg, c, e, left, n);
  }

  /** One more interval of demands `x`, after which the next tick is due. */
  lemma NextInterval(cfg: Config, c: nat, e: nat, gpu: Gpu, r: Run, s: State, v: seq<View>, K: nat, x: seq<nat>)
      returns (q: Run, t: State, w: seq<View>)
    requires Ruled(cfg, c) && Reached(cfg, c, e, gpu, r, s) && Refilled(cfg, s, c, v, K)
    requires |x| == |v| && forall j :: 0 <= j < |x| ==> x[j] <= e
    ensures Reached(cfg, c, e, gpu, q, t) && Looks(cfg, t, c, w) && NoneStopped(cfg, t, c)
    ensures forall j :: 0 <= j < |w| && cfg.In(j, c) ==> w[j] == View(Idle, K, x[j], x[j])
    ensures Sum(cfg, c, Residual(w), 0, |w|) == Sum(cfg, c, x, 0, |x|)
    ensures t.usage[c] == s.usage[c] && t.count == K && t.now == cfg.start + K * cfg.periodNs
  {
    q, t, w := Sweep(cfg, c, e, gpu, r, s, v, Burst(x), 0, |v|);
    q, t := Pass(cfg, c, e, gpu, q, t, w, K);
    SumSame(cfg, c, Residual(w), x, 0, |x|);
  }

  /** The cluster uses its whole budget, or as much as it can until the last tick of the period, and
      charges one more interval. */
  lemma LateIsReached(cfg: Config, c: nat, e: nat, gpu: Gpu) returns (r: Run, s: State)
    requires AtLowest(cfg, c, e, gpu) && cfg.interval >= 3
    ensures Reached(cfg, c, e, gpu, r, s) && s.Shape(cfg)
    ensures s.usage[c] == Min(Cap(cfg, c, gpu.low), (cfg.interval - 1) * (Cores(cfg, c) * e)) + Cores(cfg, c) * e
                          + gpu.received
  {
    var K := cfg.interval - 1;
    LaterTick(cfg, K + 1);
    var q, u, v := Climb(cfg, c, e, gpu, K);
    LateRoom(cfg, c, e, gpu, Min(Cap(cfg, c, gpu.low), K * (Cores(cfg, c) * e)));
    NextMin(Cap(cfg, c, gpu.low), Cores(cfg, c) * e, K);
    r, s := OneMoreInterval(cfg, c, e, gpu, q, u, v, K);
  }

  lemma LateRoom(cfg: Config, c: nat, e: nat, gpu: Gpu, charged: int)
    requires AtLowest(cfg, c, e, gpu) && charged <= Cap(cfg, c, gpu.low)
    ensures 0 <= charged ==> -TWO_31 <= charged + gpu.received
    ensures charged + gpu.received + Cores(cfg, c) * e < TWO_31
  {
    MulLe(0, Cores(cfg, c), e);
  }

  lemma FullSum(cfg: Config, c: nat, e: nat)
    ensures Sum(cfg, c, Full(cfg, e), 0, |cfg.clusterOf|) == Cores(cfg, c) * e && 0 <= Cores(cfg, c) * e
  {
    SumConstant(cfg, c, Full(cfg, e), 0, |cfg.clusterOf|, e);
    MulLe(0, Cores(cfg, c), e);
  }

  lemma OneMoreInterval(cfg: Config, c: nat, e: nat, gpu: Gpu, r: Run, s: State, v: seq<View>, K: nat)
      returns (q: Run, t: State)
    requires Ruled(cfg, c) && Reached(cfg, c, e, gpu, r, s) && Refilled(cfg, s, c, v, K)
    requires !IsRegulation(cfg, K + 1) && -TWO_31 <= s.usage[c] && s.usage[c] + Cores(cfg, c) * e < TWO_31
    ensures Reached(cfg, c, e, gpu, q, t) && t.Shape(cfg) && t.usage[c] == s.usage[c] + Cores(cfg, c) * e
  {
    var p, u, w := NextInterval(cfg, c, e, gpu, r, s, v, K, Full(cfg, e));
    FullSum(cfg, c, e);
    assert NoInterrupt(cfg, u, c);
    q, t, w := Sweep(cfg, c, e, gpu, p, u, w, Enter(K + 1), 0, |w|);
  }

  // ---------- the exact bounds ----------

  /** A reachable usage: that of the last state of some admissible run. */
  ghost predicate Reachable(cfg: Config, c: nat, e: nat, d: nat, g: nat, usage: int)
    requires cfg.Valid() && c < |cfg.budget|
  {
    exists r: Run :: Ends(cfg, r, c, e, d, g, usage)
  }

  ghost predicate Ends(cfg: Config, r: Run, c: nat, e: nat, d: nat, g: nat, usage: int)
    requires cfg.Valid() && c < |cfg.budget|
  {
    && r.Valid(cfg) && Admissible(cfg, r, |r.actions|, c, e, d, g)
    && r.states[|r.actions|].usage[c] == usage
  }

  lemma NeverAbove(cfg: Config, c: nat, e: nat, d: nat, g: nat, usage: int)
    requires Setting(cfg, c, e, d, g) && Reachable(cfg, c, e, d, g, usage)
    ensures usage <= Worst(cfg, c, e, d) + g && usage <= Maximum(cfg, c, e, d) + g
  {
    var r: Run :| Ends(cfg, r, c, e, d, g, usage);
    BudgetGuarantee(cfg, r, |r.actions|, c, e, d, g);
    MaximumGuarantee(cfg, r, |r.actions|, c, e, d, g);
  }

  /** At the end receivers add back what they have taken off, and all they may. */
  lemma AddAll(cfg: Config, c: nat, e: nat, gpu: Gpu, r: Run, s: State, usage: int)
    requires AtLowest(cfg, c, e, gpu)
    requires Reached(cfg, c, e, gpu, r, s) && s.Shape(cfg) && s.usage[c] == usage + gpu.received
    requires 0 <= usage && usage + gpu.high < TWO_31
    ensures Reachable(cfg, c, e, gpu.low, gpu.high, usage + gpu.high)
  {
    var a := GpuAdd(c, gpu.low + gpu.high);
    var q := Extend(cfg, c, e, gpu, r, s, a);
    WrapBelow(usage + gpu.high);
    assert Ends(cfg, q, c, e, gpu.low, gpu.high, usage + gpu.high);
  }

  lemma MaximumIsReached(cfg: Config, c: nat, e: nat, gpu: Gpu) returns (r: Run, s: State)
    requires AtLowest(cfg, c, e, gpu)
    ensures Reached(cfg, c, e, gpu, r, s) && s.Shape(cfg)
    ensures s.usage[c] == Maximum(cfg, c, e, gpu.low) + gpu.received
  {
    var N, b := Cores(cfg, c) * e, Cap(cfg, c, gpu.low);
    if cfg.interval == 2 {
      r, s := TwoTickWorst(cfg, c, e, gpu);
    } else {
      PeakIsMax(Cores(cfg, c), e, b);
      OneMore(cfg.interval - 1, N);
      if b > (cfg.interval - 1) * N || Worst(cfg, c, e, gpu.low) == b + N {
        r, s := LateIsReached(cfg, c, e, gpu);
      } else {
        var j :| 0 <= j < Cores(cfg, c) && Worst(cfg, c, e, gpu.low) == Early(Cores(cfg, c), e, b, j);
        r, s := EarlyIsReached(cfg, c, e, gpu, j);
      }
    }
  }

  lemma MaximumFits(cfg: Config, c: nat, e: nat, d: nat)
    requires cfg.interval >= 2 && c < |cfg.budget| && 0 <= cfg.budget[c] && Cores(cfg, c) > 0
    ensures 0 <= Maximum(cfg, c, e, d) <= Cap(cfg, c, d) + 2 * (Cores(cfg, c) * e)
  {
    WorstInIntervals(cfg, c, e, d);
    WorstNotNegative(cfg, c, e, d);
    MulLe(0, Cores(cfg, c), e);
    MulLe(0, cfg.interval, Cores(cfg, c) * e);
    OneMore(cfg.interval - 1, Cores(cfg, c) * e);
  }

  /** The guarantee is exact for every configuration, demand and budget and for all that receivers may
      take off and add: the maximum, plus what they may add, is reached and never exceeded. */
  lemma MaximumIsExact(cfg: Config, c: nat, e: nat, d: nat, g: nat)
    requires Setting(cfg, c, e, d, g)
    ensures Reachable(cfg, c, e, d, g, Maximum(cfg, c, e, d) + g)
    ensures forall usage :: Reachable(cfg, c, e, d, g, usage) ==> usage <= Maximum(cfg, c, e, d) + g
  {
    forall usage | Reachable(cfg, c, e, d, g, usage)
      ensures usage <= Maximum(cfg, c, e, d) + g
    {
      NeverAbove(cfg, c, e, d, g, usage);
    }
    var gpu := Gpu(d, g, -(d as int));
    var r, s := MaximumIsReached(cfg, c, e, gpu);
    SomeCore(cfg, c, cfg.leader[c], |cfg.clusterOf|);
    MaximumFits(cfg, c, e, d);
    AddAll(cfg, c, e, gpu, r, s, Maximum(cfg, c, e, d));
  }

  /** One interval per core over the budget, apart from what receivers take off and add, is enough for
      every run if and only if the budget is at least 2n - 1 intervals (n intervals, with two ticks per
      period). */
  lemma OneIntervalIff(cfg: Config, c: nat, e: nat, d: nat, g: nat)
    requires Setting(cfg, c, e, d, g)
    ensures (forall usage :: Reachable(cfg, c, e, d, g, usage) ==> usage <= Cap(cfg, c, d) + Cores(cfg, c) * e + g)
       <==> EnoughForOne(cfg, c, e, d)
  {
    SomeCore(cfg, c, cfg.leader[c], |cfg.clusterOf|);
    WorstInIntervals(cfg, c, e, d);
    if EnoughForOne(cfg, c, e, d) {
      forall usage | Reachable(cfg, c, e, d, g, usage)
        ensures usage <= Cap(cfg, c, d) + Cores(cfg, c) * e + g
      {
        NeverAbove(cfg, c, e, d, g, usage);
      }
    } else {
      OneIntervalFails(cfg, c, e, Gpu(d, g, -(d as int)));
    }
  }

  lemma OneIntervalFails(cfg: Config, c: nat, e: nat, gpu: Gpu)
    requires AtLowest(cfg, c, e, gpu)
    requires Cores(cfg, c) > 0 && !EnoughForOne(cfg, c, e, gpu.low)
    ensures exists usage :: usage > Cap(cfg, c, gpu.low) + Cores(cfg, c) * e + gpu.high
                         && Reachable(cfg, c, e, gpu.low, gpu.high, usage)
  {
    var b, N := Cap(cfg, c, gpu.low), Cores(cfg, c) * e;
    var r, s, top;
    if cfg.interval == 2 {
      r, s := TwoTickWorst(cfg, c, e, gpu);
      top := 2 * N;
    } else {
      var j := FittingCores(Cores(cfg, c), e, b);
      TooEarly(Cores(cfg, c), e, b, j);
      EarlyFits(Cores(cfg, c), e, b, j);
      r, s := EarlyIsReached(cfg, c, e, gpu, j);
      top := Early(Cores(cfg, c), e, b, j);
    }
    AddAll(cfg, c, e, gpu, r, s, top);
  }

  lemma EarlyFits(n: nat, e: nat, b: nat, j: nat)
    requires j <= n
    ensures Early(n, e, b, j) <= b + 2 * (n * e)
  {
    PeakIsMax(n, e, b);
    PeakBounds(n, e, b);
  }
}
