/** The shared tick counter: every interleaving of compare-and-swap and read-back. */
module TickCounter {
  import opened Regulator

  ghost predicate LocalsBehind(s: State) {
    forall i :: 0 <= i < |s.cores| ==>
      && s.cores[i].local <= s.count
      && (s.cores[i].pc.Swapped? ==> s.cores[i].local < s.count)
  }

  /** What one step may do to the counters. */
  ghost predicate TickLaw(s: State, a: Action, t: State) {
    && |t.cores| == |s.cores|
    && (t.count == s.count
        || (t.count == s.count + 1 && a.Swap? && a.core < |s.cores| && s.cores[a.core].local == s.count))
    && (forall i :: 0 <= i < |s.cores| ==>
          if a == Fetch(i) then t.cores[i].local > s.cores[i].local
          else t.cores[i].local == s.cores[i].local)
    && LocalsBehind(t)
  }

  lemma TickStep(cfg: Config, s: State, a: Action)
    requires cfg.Valid() && s.Shape(cfg) && Enabled(cfg, s, a) && LocalsBehind(s)
    ensures TickLaw(s, a, Apply(cfg, s, a))
  {
  }

  /** On any number of cores and in any interleaving, the shared count only ever rises by one, and
      only through a core whose local count equals it; every callback strictly raises its core's
      local count; no local count passes the shared one. */
  lemma {:induction false} TicksInEveryRun(cfg: Config, r: Run, n: nat)
    requires cfg.Valid() && r.Valid(cfg) && n <= |r.actions|
    ensures forall k :: 0 <= k <= n ==> LocalsBehind(r.states[k])
    ensures forall k :: 0 <= k < n ==> TickLaw(r.states[k], r.actions[k], r.states[k + 1])
    ensures forall j, k :: 0 <= j <= k <= n ==> r.states[j].count <= r.states[k].count
  {
    if n > 0 {
      TicksInEveryRun(cfg, r, n - 1);
      assert r.Step(cfg, n - 1);
      TickStep(cfg, r.states[n - 1], r.actions[n - 1]);
    }
  }
}

/** Who is throttled, and why, in every run and interleaving. */
module Throttling {
  import opened Regulator

  /** The step is a check of cluster `c` that finds its usage over budget: by one of its cores that is
      not throttled itself, or by a receiver. */
  ghost predicate FindsOverBudget(cfg: Config, s: State, a: Action, c: nat)
    requires cfg.Valid() && s.Shape(cfg) && Enabled(cfg, s, a) && c < |cfg.budget|
  {
    && s.usage[c] > cfg.budget[c]
    && ((a.Check? && cfg.In(a.core, c) && !s.cores[a.core].throttled) || (a.GpuCheck? && a.cluster == c))
  }

  /** The cpu on which a check runs. */
  predicate RunsOn(a: Action, j: nat) {
    (a.Check? && a.core == j) || (a.GpuCheck? && a.cpu == j)
  }

  /** A core is throttled by the interrupt that reaches it or by its own finding, and released by its
      own regulation body only; an interrupt is sent by somebody else's finding and pends until it
      arrives. */
  lemma ThrottleLaw(cfg: Config, s: State, a: Action, j: nat)
    requires cfg.Valid() && s.Shape(cfg) && Enabled(cfg, s, a) && j < |s.cores|
    ensures var k, l, over := s.cores[j], Apply(cfg, s, a).cores[j], FindsOverBudget(cfg, s, a, cfg.clusterOf[j]);
      && (l.throttled <==> a == Deliver(j) || (over && RunsOn(a, j)) || (k.throttled && a != Regulate(j)))
      && (l.ipi <==> (over && !RunsOn(a, j)) || (k.ipi && a != Deliver(j)))
  {
  }

  /** A core turns from running to stopped exactly in a step that finds its cluster over budget, and
      back exactly in its own regulation body with no interrupt pending. */
  lemma StopsOnlyOverBudget(cfg: Config, r: Run, k: nat, j: nat)
    requires cfg.Valid() && r.Valid(cfg) && k < |r.actions| && r.Step(cfg, k) && j < |cfg.clusterOf|
    ensures var s, t, a := r.states[k], r.states[k + 1], r.actions[k];
      && (!s.cores[j].Stopped() ==> (t.cores[j].Stopped() <==> FindsOverBudget(cfg, s, a, cfg.clusterOf[j])))
      && (s.cores[j].Stopped() ==> (!t.cores[j].Stopped() <==> a == Regulate(j) && !s.cores[j].ipi))
  {
    ThrottleLaw(cfg, r.states[k], r.actions[k], j);
  }

  /** In every run, a stopped core has been stopped without a break since a step that found its
      cluster over budget. */
  lemma {:induction false} StoppedSince(cfg: Config, r: Run, n: nat, j: nat) returns (m: nat)
    requires cfg.Valid() && r.Valid(cfg) && n <= |r.actions| && j < |cfg.clusterOf|
    requires r.states[n].cores[j].Stopped()
    ensures m < n && r.Step(cfg, m) && !r.states[m].cores[j].Stopped()
    ensures FindsOverBudget(cfg, r.states[m], r.actions[m], cfg.clusterOf[j])
    ensures forall k :: m < k <= n ==> r.states[k].cores[j].Stopped()
  {
    assert n > 0 && r.Step(cfg, n - 1);
    StopsOnlyOverBudget(cfg, r, n - 1, j);
    if r.states[n - 1].cores[j].Stopped() { m := StoppedSince(cfg, r, n - 1, j); } else { m := n - 1; }
  }

  /** What can happen next: of the callback's steps exactly one, unless the core is outside its callback
      and its timer is not due; an interrupt arrives exactly if one is pending; events, receivers and
      time are never blocked. */
  lemma NeverBlocked(cfg: Config, s: State, i: nat, n: nat, c: nat, amount: int)
    requires cfg.Valid() && s.Shape(cfg) && i < |s.cores|
    ensures var k := s.cores[i];
      && (Enabled(cfg, s, Swap(i)) <==> k.pc.Idle? && k.due <= s.now)
      && (Enabled(cfg, s, Fetch(i)) <==> k.pc.Swapped?)
      && (Enabled(cfg, s, Regulate(i)) <==> k.pc.Fetched? && k.local % cfg.interval == 1)
      && (Enabled(cfg, s, Charge(i)) <==> k.pc.Fetched? && k.local % cfg.interval != 1)
      && (Enabled(cfg, s, Check(i)) <==> k.pc.Charged?)
      && (Enabled(cfg, s, Deliver(i)) <==> k.ipi)
    ensures Enabled(cfg, s, Events(i, n)) && Enabled(cfg, s, Advance(n))
    ensures c < |cfg.budget| ==> Enabled(cfg, s, GpuAdd(c, amount)) && Enabled(cfg, s, GpuCheck(c, i))
  {
  }
}

/** Conservation of charged events, in every run and interleaving. */
module Conservation {
  import opened MachineInts
  import opened Regulator

  function OldRead(k: Core): int { k.oldRead }

  /** Usage plus everything wiped, minus what the counter readings and the receivers account for. */
  function Imbalance(cfg: Config, s: State, c: nat): int
    requires |s.cores| <= |cfg.clusterOf| && c < |s.usage| && c < |s.wiped| && c < |s.gpuCharged|
  {
    s.usage[c] + s.wiped[c] - Total(cfg, s.cores, c, OldRead) - s.gpuCharged[c]
  }

  /** Each core's charges telescope to the counter reading of its last charge. */
  ghost predicate Telescoped(s: State) {
    forall i :: 0 <= i < |s.cores| ==>
      && s.cores[i].charged == s.cores[i].oldRead
      && 0 <= s.cores[i].oldRead <= s.cores[i].counter
  }

  /** The addition of this step to the usage of cluster `c`, if any, stays within 32 bits. */
  ghost predicate AddsExactly(cfg: Config, s: State, a: Action, c: nat)
    requires cfg.Valid() && s.Shape(cfg) && Enabled(cfg, s, a) && c < |cfg.budget|
  {
    match a
    case Charge(i) => cfg.In(i, c) ==> -TWO_31 <= s.usage[c] + s.cores[i].Residue() < TWO_31
    case GpuAdd(d, n) => d == c ==> -TWO_31 <= s.usage[c] + n < TWO_31
    case _ => true
  }

  /** Wrapping changes a sum by a multiple of 2^32, or not at all. */
  lemma WrapChanges(x: int)
    ensures (Wrap32(x) - x) % TWO_32 == 0
    ensures -TWO_31 <= x < TWO_31 ==> Wrap32(x) == x
  {
    ModShift(0, TWO_32, -((x - Wrap32(x)) / TWO_32));
  }

  lemma ImbalanceCharge(cfg: Config, s: State, i: nat, c: nat)
    requires cfg.Valid() && s.Shape(cfg) && Enabled(cfg, s, Charge(i)) && c < |cfg.budget|
    ensures (Imbalance(cfg, Apply(cfg, s, Charge(i)), c) - Imbalance(cfg, s, c)) % TWO_32 == 0
    ensures AddsExactly(cfg, s, Charge(i), c) ==>
      Imbalance(cfg, Apply(cfg, s, Charge(i)), c) == Imbalance(cfg, s, c)
  {
    TotalUpdate(cfg, s.cores, c, OldRead, i, Apply(cfg, s, Charge(i)).cores[i]);
    if cfg.clusterOf[i] == c { WrapChanges(s.usage[c] + s.cores[i].Residue()); }
  }

  lemma ImbalanceStep(cfg: Config, s: State, a: Action, c: nat)
    requires cfg.Valid() && s.Shape(cfg) && Enabled(cfg, s, a) && c < |cfg.budget|
    ensures (Imbalance(cfg, Apply(cfg, s, a), c) - Imbalance(cfg, s, c)) % TWO_32 == 0
    ensures AddsExactly(cfg, s, a, c) ==> Imbalance(cfg, Apply(cfg, s, a), c) == Imbalance(cfg, s, c)
  {
    var t := Apply(cfg, s, a);
    match a
    case Charge(i) =>
      ImbalanceCharge(cfg, s, i, c);
    case GpuAdd(d, n) =>
      if d == c { WrapChanges(s.usage[c] + n); }
    case _ =>
      TotalSame(cfg, s.cores, t.cores, c, OldRead);
  }

  lemma TelescopedStep(cfg: Config, s: State, a: Action)
    requires cfg.Valid() && s.Shape(cfg) && Enabled(cfg, s, a) && Telescoped(s)
    ensures Telescoped(Apply(cfg, s, a))
  {
  }

  lemma {:induction false} InitBalance(cfg: Config, cores: seq<Core>, c: nat)
    requires |cores| <= |cfg.clusterOf|
    requires forall i :: 0 <= i < |cores| ==> cores[i].oldRead == 0
    ensures Total(cfg, cores, c, OldRead) == 0
  {
    if |cores| > 0 {
      InitBalance(cfg, cores[..|cores| - 1], c);
    }
  }

  /** In every run: usage plus everything wiped by leader resets equals the counter readings already
      charged by the cluster's cores plus all receiver charges, modulo 2^32; and each core has
      charged exactly its reading, so a regulation tick neither loses nor repeats an event. */
  lemma {:induction false} ConservedInEveryRun(cfg: Config, r: Run, n: nat, c: nat)
    requires cfg.Valid() && r.Valid(cfg) && n <= |r.actions| && c < |cfg.budget|
    ensures Telescoped(r.states[n])
    ensures (r.states[n].usage[c] + r.states[n].wiped[c]) % TWO_32
         == (Total(cfg, r.states[n].cores, c, OldRead) + r.states[n].gpuCharged[c]) % TWO_32
    ensures (forall k :: 0 <= k < n ==> r.Step(cfg, k) && AddsExactly(cfg, r.states[k], r.actions[k], c)) ==>
      r.states[n].usage[c] + r.states[n].wiped[c]
        == Total(cfg, r.states[n].cores, c, OldRead) + r.states[n].gpuCharged[c]
  {
    if n == 0 {
      InitBalance(cfg, r.states[0].cores, c);
    } else {
      ConservedInEveryRun(cfg, r, n - 1, c);
      var s, t := r.states[n - 1], r.states[n];
      assert r.Step(cfg, n - 1);
      ImbalanceStep(cfg, s, r.actions[n - 1], c);
      TelescopedStep(cfg, s, r.actions[n - 1]);
      Congruent(Imbalance(cfg, s, c), Imbalance(cfg, t, c),
        s.usage[c] + s.wiped[c], Total(cfg, s.cores, c, OldRead) + s.gpuCharged[c],
        t.usage[c] + t.wiped[c], Total(cfg, t.cores, c, OldRead) + t.gpuCharged[c]);
    }
  }

  lemma Congruent(x: int, y: int, a: int, b: int, a': int, b': int)
    requires x == a - b && y == a' - b'
    requires a % TWO_32 == b % TWO_32 && (y - x) % TWO_32 == 0
    ensures a' % TWO_32 == b' % TWO_32
  {
  }
}

/** Drift-free periods: timers never fire early, and each is armed at start + local * T_A. */
module Periods {
  import opened MachineInts
  import opened Regulator
  import opened TickCounter

  ghost predicate Armed(cfg: Config, s: State)
    requires cfg.Valid()
  {
    && cfg.start <= s.now
    && (s.count > 0 ==> cfg.start + (s.count - 1) * cfg.periodNs <= s.now)
    && forall i :: 0 <= i < |s.cores| ==>
         && s.cores[i].due == cfg.start + s.cores[i].local * cfg.periodNs
         && (s.cores[i].pc.Fetched? ==> s.cores[i].local > 0)
  }

  lemma ArmedStep(cfg: Config, s: State, a: Action)
    requires cfg.Valid() && s.Shape(cfg) && Enabled(cfg, s, a) && LocalsBehind(s) && Armed(cfg, s)
    ensures Armed(cfg, Apply(cfg, s, a))
  {
  }

  /** The leader of cluster `c` has wiped at most once per regulation tick it has gone through. */
  ghost predicate Regulated(cfg: Config, s: State, c: nat)
    requires cfg.Valid() && s.Shape(cfg) && c < |cfg.budget|
  {
    var l, m := cfg.leader[c], s.regulations[c];
    if cfg.In(l, c) then
      var k := s.cores[l];
      m * cfg.interval <= if k.pc.Fetched? && IsRegulation(cfg, k.local) then k.local - 1
                          else k.local + cfg.interval - 1
    else m == 0
  }

  /** A later regulation tick leaves room for one more period. */
  lemma RoomForOne(m: nat, interval: nat, before: nat, tick: nat)
    requires interval >= 1 && before < tick && tick % interval == 1
    requires m * interval <= before + interval - 1
    ensures m * interval <= tick - 1
  {
    var j := tick / interval;
    assert tick - 1 == j * interval;
    var x := tick - 1 + interval - 1;
    DivLower(m, interval, x);
    DivUnique(x, interval, j, interval - 1);
    MulLe(m, j, interval);
  }

  lemma RegulatedStep(cfg: Config, s: State, a: Action, c: nat)
    requires cfg.Valid() && s.Shape(cfg) && Enabled(cfg, s, a) && LocalsBehind(s)
    requires c < |cfg.budget| && Regulated(cfg, s, c)
    ensures Regulated(cfg, Apply(cfg, s, a), c)
  {
    var m := s.regulations[c];
    match a
    case Fetch(i) =>
      if i == cfg.leader[c] && IsRegulation(cfg, s.count) && cfg.In(i, c) {
        RoomForOne(m, cfg.interval, s.cores[i].local, s.count);
      }
    case Regulate(i) =>
      if i == cfg.leader[c] && cfg.In(i, c) {
        assert (m + 1) * cfg.interval == m * cfg.interval + cfg.interval;
      }
    case _ =>
  }

  /** How often the leader of cluster `c` has executed a regulation body in the first `n` steps. */
  function Resets(cfg: Config, r: Run, n: nat, c: nat): nat
    requires n <= |r.actions| && c < |cfg.leader|
  {
    if n == 0 then 0
    else
      var a := r.actions[n - 1];
      Resets(cfg, r, n - 1, c) + if a.Regulate? && cfg.In(a.core, c) && a.core == cfg.leader[c] then 1 else 0
  }

  /** In every run the period count of a cluster counts its leader's regulation bodies. */
  lemma {:induction false} ResetsCounted(cfg: Config, r: Run, n: nat, c: nat)
    requires cfg.Valid() && r.Valid(cfg) && n <= |r.actions| && c < |cfg.budget|
    ensures r.states[n].regulations[c] == Resets(cfg, r, n, c)
  {
    if n > 0 {
      ResetsCounted(cfg, r, n - 1, c);
      assert r.Step(cfg, n - 1);
    }
  }

  lemma {:induction false} ArmedInEveryRun(cfg: Config, r: Run, n: nat, c: nat)
    requires cfg.Valid() && r.Valid(cfg) && n <= |r.actions| && c < |cfg.budget|
    ensures LocalsBehind(r.states[n]) && Armed(cfg, r.states[n]) && Regulated(cfg, r.states[n], c)
  {
    if n > 0 {
      ArmedInEveryRun(cfg, r, n - 1, c);
      assert r.Step(cfg, n - 1);
      TickStep(cfg, r.states[n - 1], r.actions[n - 1]);
      ArmedStep(cfg, r.states[n - 1], r.actions[n - 1]);
      RegulatedStep(cfg, r.states[n - 1], r.actions[n - 1], c);
    }
  }

  lemma TicksBound(count: nat, T: nat, e: nat)
    requires T >= 1 && (count > 0 ==> (count - 1) * T <= e)
    ensures count <= e / T + 1
  {
    if count > 0 { DivLower(count - 1, T, e); }
  }

  lemma Regroup(a: int, b: int, c: int)
    ensures a * b * c == a * (b * c)
  {
  }

  lemma PeriodsBound(m: nat, M: nat, count: nat, T: nat, e: nat)
    requires T >= 1 && M >= 1 && m * M <= count + M - 1 && (count > 0 ==> (count - 1) * T <= e)
    ensures M * T > 0 && m <= e / (M * T) + 1
  {
    MulLe(1, M, T);
    if m > 0 {
      var j := m - 1;
      assert j * M <= count - 1 by { assert (j + 1) * M == j * M + M; }
      MulLe(0, j, M);
      MulLe(j * M, count - 1, T);
      Regroup(j, M, T);
      DivLower(j, M * T, e);
    }
  }

  /** Whole runs do not drift: the number of ticks and the number of regulation periods are both
      bounded by the time elapsed since the common start. */
  lemma TicksFollowTime(cfg: Config, r: Run, n: nat, c: nat)
    requires cfg.Valid() && r.Valid(cfg) && n <= |r.actions| && c < |cfg.budget|
    ensures r.states[n].count <= (r.states[n].now - cfg.start) / cfg.periodNs + 1
    ensures cfg.interval * cfg.periodNs > 0
    ensures r.states[n].regulations[c] <= (r.states[n].now - cfg.start) / (cfg.interval * cfg.periodNs) + 1
  {
    ArmedInEveryRun(cfg, r, n, c);
    var s := r.states[n];
    TicksBound(s.count, cfg.periodNs, s.now - cfg.start);
    PeriodsBound(s.regulations[c], cfg.interval, s.count, cfg.periodNs, s.now - cfg.start);
  }

  /** The reset at tick 1 + j * M is never early. */
  lemma ResetNeverEarly(cfg: Config, r: Run, k: nat, i: nat, j: nat)
    requires cfg.Valid() && r.Valid(cfg) && k < |r.actions| && r.actions[k] == Regulate(i)
    requires i < |r.states[k].cores| && r.states[k].cores[i].local == 1 + j * cfg.interval
    ensures cfg.start + j * cfg.interval * cfg.periodNs <= r.states[k].now
  {
    var c := cfg.clusterOf[i];
    ArmedInEveryRun(cfg, r, k, c);
    MulLe(j * cfg.interval, r.states[k].count - 1, cfg.periodNs);
  }
}
