/**
 The budget guarantee: how far a cluster's usage can overshoot while its receiver adds at most `g` to it
 and takes at most `d` off it between two resets.
 */
module Budget {
  import opened MachineInts
  import opened Overshoot
  import opened Regulator
  import opened Punctuality
  import opened Lockstep

  // ---------- hypotheses ----------

  /** A core generates events only between its callbacks and only while it is not stopped, and at
      most `e` of them from one callback to the next. */
  ghost predicate Demand(cfg: Config, s: State, a: Action, c: nat, e: nat)
    requires cfg.Valid() && s.Shape(cfg) && Enabled(cfg, s, a)
  {
    a.Events? && cfg.In(a.core, c) && a.n > 0 ==>
      s.cores[a.core].pc.Idle? && !s.cores[a.core].Stopped() && s.cores[a.core].gen + a.n <= e
  }

  /** What receivers have added to cluster `c` since its usage was last wiped. */
  function SinceReset(cfg: Config, a: Action, received: int, c: nat): int
    requires c < |cfg.leader|
  {
    match a
    case Regulate(i) => if cfg.In(i, c) && cfg.leader[c] == i then 0 else received
    case GpuAdd(d, n) => if d == c then received + n else received
    case _ => received
  }

  /** Receivers have taken off at most `d` and added at most `g`. */
  predicate InBounds(received: int, d: nat, g: nat) {
    0 <= received + d && received <= g
  }

  function Received(cfg: Config, r: Run, n: nat, c: nat): int
    requires n <= |r.actions| && c < |cfg.leader|
  {
    if n == 0 then 0 else SinceReset(cfg, r.actions[n - 1], Received(cfg, r, n - 1, c), c)
  }

  ghost predicate DemandAt(cfg: Config, r: Run, k: nat, c: nat, e: nat)
    requires cfg.Valid() && r.Valid(cfg) && k < |r.actions|
  {
    r.Step(cfg, k) && Demand(cfg, r.states[k], r.actions[k], c, e)
  }

  /** The first `n` steps of a run are disciplined, no core exceeds its demand, and receivers add
      between -d and g events from one reset to the next. */
  ghost predicate Admissible(cfg: Config, r: Run, n: nat, c: nat, e: nat, d: nat, g: nat)
    requires cfg.Valid() && r.Valid(cfg) && n <= |r.actions| && c < |cfg.leader|
  {
    && Disciplined(cfg, r, n, c)
    && (forall k :: 0 <= k < n ==> DemandAt(cfg, r, k, c, e))
    && (forall k :: 0 <= k <= n ==> InBounds(Received(cfg, r, k, c), d, g))
  }

  ghost predicate Setting(cfg: Config, c: nat, e: nat, d: nat, g: nat) {
    && cfg.Valid() && cfg.interval >= 2 && c < |cfg.budget|
    && cfg.In(cfg.leader[c], c)
    && 0 <= cfg.budget[c]
    && Cap(cfg, c, d) + 2 * (Cores(cfg, c) * e) + g < TWO_31 && d <= TWO_31
  }

  /** What the cores may have charged when a check finds the usage within the budget, receivers having
      taken `d` off it. */
  function Cap(cfg: Config, c: nat, d: nat): int
    requires c < |cfg.budget|
  {
    cfg.budget[c] + d
  }

  function Cores(cfg: Config, c: nat): nat {
    Size(cfg, c, |cfg.clusterOf|)
  }

  /** The highest usage that the cores can reach. With two ticks per period every charging tick
      follows a reset and brings two intervals of each core. */
  function Worst(cfg: Config, c: nat, e: nat, d: nat): int
    requires c < |cfg.budget| && 0 <= cfg.budget[c]
  {
    if cfg.interval == 2 then 2 * (Cores(cfg, c) * e) else Peak(Cores(cfg, c), e, Cap(cfg, c, d))
  }

  // ---------- single cores ----------

  function Amount(k: Core): int { if k.pc.Charged? then k.pc.amount else 0 }
  function Residue(k: Core): int { k.Residue() }

  predicate Done(k: Core, K: nat) { k.local == K && k.pc.Idle? }

  function DoneIn(K: nat): Core -> int { (k: Core) => if Done(k, K) then 1 else 0 }

  /** One interval's worth of events may be left over from a regulation tick, which does not charge. */
  function LeftOver(cfg: Config, tick: int, e: nat): nat
    requires cfg.interval >= 1
  {
    if tick >= 0 && IsRegulation(cfg, tick) then e else 0
  }

  ghost predicate CoreBound(cfg: Config, k: Core, e: nat)
    requires cfg.interval >= 1
  {
    && k.gen <= e
    && 0 <= k.Residue() <= k.gen + LeftOver(cfg, Executed(k), e)
    && (k.pc.Fetched? || k.pc.Charged? ==> k.local >= 1)
    && (k.pc.Charged? ==> 0 <= k.pc.amount <= e + LeftOver(cfg, k.local - 1, e) && k.Residue() == 0)
  }

  ghost predicate CoresBound(cfg: Config, s: State, c: nat, e: nat)
    requires cfg.interval >= 1 && s.Shape(cfg)
  {
    forall i :: cfg.In(i, c) ==> CoreBound(cfg, s.cores[i], e)
  }

  /** One core of the cluster keeps its bound. */
  lemma CoreStep(cfg: Config, s: State, a: Action, c: nat, e: nat, i: nat)
    requires cfg.Valid() && cfg.interval >= 2 && s.Shape(cfg) && Enabled(cfg, s, a)
    requires cfg.In(i, c) && CoreBound(cfg, s.cores[i], e) && InStep(cfg, s, a, c) && Demand(cfg, s, a, c, e)
    ensures CoreBound(cfg, Apply(cfg, s, a).cores[i], e)
  {
    if a == Regulate(i) { NotTwoRegulations(cfg, s.cores[i].local); }
  }

  lemma CoresStep(cfg: Config, s: State, a: Action, c: nat, e: nat)
    requires cfg.Valid() && cfg.interval >= 2 && s.Shape(cfg) && Enabled(cfg, s, a)
    requires CoresBound(cfg, s, c, e) && InStep(cfg, s, a, c) && Demand(cfg, s, a, c, e)
    ensures CoresBound(cfg, Apply(cfg, s, a), c, e)
  {
    forall i | cfg.In(i, c)
      ensures CoreBound(cfg, Apply(cfg, s, a).cores[i], e)
    {
      CoreStep(cfg, s, a, c, e, i);
    }
  }

  // ---------- sums over the cluster ----------

  /** What is charged but unchecked and what is not charged leaves room for `e` per finished core. */
  lemma {:induction false} RoomLeft(cfg: Config, cores: seq<Core>, c: nat, e: nat, top: nat, K: nat)
    requires |cores| <= |cfg.clusterOf|
    requires forall i :: 0 <= i < |cores| && cfg.In(i, c) ==>
      && 0 <= Amount(cores[i]) && 0 <= Residue(cores[i])
      && Amount(cores[i]) + Residue(cores[i]) <= if Done(cores[i], K) then top - e else top
    ensures 0 <= Total(cfg, cores, c, Amount) && 0 <= Total(cfg, cores, c, Residue)
    ensures 0 <= Total(cfg, cores, c, DoneIn(K)) <= Size(cfg, c, |cores|)
    ensures Total(cfg, cores, c, Amount) + Total(cfg, cores, c, Residue) + Total(cfg, cores, c, DoneIn(K)) * e
         <= Size(cfg, c, |cores|) * top
  {
    if |cores| > 0 {
      var n := |cores| - 1;
      var l, m, d := cores[n], Size(cfg, c, n), Total(cfg, cores[..n], c, DoneIn(K));
      RoomLeft(cfg, cores[..n], c, e, top, K);
      if cfg.clusterOf[n] == c {
        assert cfg.In(n, c);
        assert DoneIn(K)(l) == if Done(l, K) then 1 else 0;
        OneMore(m, top);
        OneMore(d, e);
      }
    }
  }

  /** A core of the cluster that is not finished is missing in the count. */
  lemma {:induction false} NotAllDone(cfg: Config, cores: seq<Core>, c: nat, K: nat, i: nat)
    requires |cores| <= |cfg.clusterOf| && i < |cores| && cfg.In(i, c) && !Done(cores[i], K)
    ensures Total(cfg, cores, c, DoneIn(K)) < Size(cfg, c, |cores|)
  {
    var n := |cores| - 1;
    if i == n {
      DoneCount(cfg, cores[..n], c, K);
      assert DoneIn(K)(cores[n]) == 0;
    } else {
      NotAllDone(cfg, cores[..n], c, K, i);
      assert DoneIn(K)(cores[n]) <= 1;
    }
  }

  lemma {:induction false} DoneCount(cfg: Config, cores: seq<Core>, c: nat, K: nat)
    requires |cores| <= |cfg.clusterOf|
    ensures 0 <= Total(cfg, cores, c, DoneIn(K)) <= Size(cfg, c, |cores|)
  {
    if |cores| > 0 {
      DoneCount(cfg, cores[..|cores| - 1], c, K);
      assert 0 <= DoneIn(K)(cores[|cores| - 1]) <= 1;
    }
  }

  // ---------- the cluster ----------

  predicate FirstTick(cfg: Config, K: nat)
    requires cfg.interval >= 1
  {
    K >= 1 && IsRegulation(cfg, K - 1)
  }

  function Amounts(cfg: Config, s: State, c: nat): int
    requires s.Shape(cfg)
  {
    Total(cfg, s.cores, c, Amount)
  }

  function Residues(cfg: Config, s: State, c: nat): int
    requires s.Shape(cfg)
  {
    Total(cfg, s.cores, c, Residue)
  }

  function Finishers(cfg: Config, s: State, c: nat, K: nat): int
    requires s.Shape(cfg)
  {
    Total(cfg, s.cores, c, DoneIn(K))
  }

  /** In aggregation tick `K`, charges and residues together. */
  lemma ExposureBound(cfg: Config, s: State, c: nat, e: nat, K: nat)
    requires cfg.interval >= 1 && s.Shape(cfg) && CoresBound(cfg, s, c, e) && Together(cfg, s, c, K)
    requires !IsRegulation(cfg, K)
    ensures 0 <= Amounts(cfg, s, c) && 0 <= Residues(cfg, s, c)
    ensures 0 <= Finishers(cfg, s, c, K) <= Cores(cfg, c)
    ensures Amounts(cfg, s, c) + Residues(cfg, s, c) <= 2 * (Cores(cfg, c) * e) - Finishers(cfg, s, c, K) * e
    ensures !FirstTick(cfg, K) ==> Amounts(cfg, s, c) + Residues(cfg, s, c) <= Cores(cfg, c) * e
  {
    CoresRoom(cfg, s, c, e, K);
    RoomLeft(cfg, s.cores, c, e, 2 * e, K);
    Twice(Cores(cfg, c), e);
    if !FirstTick(cfg, K) {
      RoomLeft(cfg, s.cores, c, 0, e, K);
    }
  }

  lemma CoresRoom(cfg: Config, s: State, c: nat, e: nat, K: nat)
    requires cfg.interval >= 1 && s.Shape(cfg) && CoresBound(cfg, s, c, e) && Together(cfg, s, c, K)
    requires !IsRegulation(cfg, K)
    ensures forall i :: cfg.In(i, c) ==>
      && 0 <= Amount(s.cores[i]) && 0 <= Residue(s.cores[i])
      && Amount(s.cores[i]) + Residue(s.cores[i]) <=
           if FirstTick(cfg, K) && !Done(s.cores[i], K) then 2 * e else e
  {
    forall i | cfg.In(i, c)
      ensures 0 <= Amount(s.cores[i]) && 0 <= Residue(s.cores[i])
      ensures Amount(s.cores[i]) + Residue(s.cores[i])
           <= if FirstTick(cfg, K) && !Done(s.cores[i], K) then 2 * e else e
    {
      assert CoreBound(cfg, s.cores[i], e);
    }
  }

  ghost predicate LeaderDone(cfg: Config, s: State, c: nat, K: nat)
    requires cfg.Valid() && s.Shape(cfg) && c < |cfg.leader| && cfg.In(cfg.leader[c], c)
  {
    Done(s.cores[cfg.leader[c]], K)
  }

  /** `v` is what the cores have charged since the reset. In a regulation tick it is about to be
      wiped. In an aggregation tick, what is checked is within the budget as long as the cores run; once
      stopped, `v` and everything not yet charged are within the peak. */
  ghost predicate UsageBound(cfg: Config, s: State, c: nat, e: nat, d: nat, K: nat, v: int)
    requires Setting(cfg, c, e, d, 0) && s.Shape(cfg)
  {
    && 0 <= v
    && (K == 0 ==> v == 0)
    && if IsRegulation(cfg, K) then
         if Finished(cfg, s, c, K) then v == 0
         else v <= Worst(cfg, c, e, d) && (LeaderDone(cfg, s, c, K) ==> v == 0)
       else
         && (FirstTick(cfg, K) ==> v - Amounts(cfg, s, c) <= 2 * (Finishers(cfg, s, c, K) * e))
         && if NoneStopped(cfg, s, c) then v - Amounts(cfg, s, c) <= Cap(cfg, c, d)
            else v + Residues(cfg, s, c) <= Peak(Cores(cfg, c), e, Cap(cfg, c, d))
  }

  /** What holds while the cores run is enough for the moment they are stopped. */
  lemma StopBound(cfg: Config, s: State, c: nat, e: nat, d: nat, K: nat, v: int)
    requires Setting(cfg, c, e, d, 0) && s.Shape(cfg)
    requires CoresBound(cfg, s, c, e) && Together(cfg, s, c, K) && !IsRegulation(cfg, K)
    requires FirstTick(cfg, K) ==> v - Amounts(cfg, s, c) <= 2 * (Finishers(cfg, s, c, K) * e)
    requires v - Amounts(cfg, s, c) <= Cap(cfg, c, d)
    ensures v + Residues(cfg, s, c) <= Peak(Cores(cfg, c), e, Cap(cfg, c, d))
  {
    ExposureBound(cfg, s, c, e, K);
    PeakIsMax(Cores(cfg, c), e, Cap(cfg, c, d));
    if FirstTick(cfg, K) {
      assert v + Residues(cfg, s, c) <= Early(Cores(cfg, c), e, Cap(cfg, c, d), Finishers(cfg, s, c, K));
    }
  }

  /** Unchecked charges come from cores that have not finished. */
  lemma {:induction false} AmountsLeft(cfg: Config, cores: seq<Core>, c: nat, top: nat, K: nat)
    requires |cores| <= |cfg.clusterOf|
    requires forall i :: 0 <= i < |cores| && cfg.In(i, c) ==> Amount(cores[i]) <= top
    ensures Total(cfg, cores, c, Amount) + Total(cfg, cores, c, DoneIn(K)) * top <= Size(cfg, c, |cores|) * top
  {
    if |cores| > 0 {
      var n := |cores| - 1;
      var l, m, d := cores[n], Size(cfg, c, n), Total(cfg, cores[..n], c, DoneIn(K));
      AmountsLeft(cfg, cores[..n], c, top, K);
      if cfg.clusterOf[n] == c {
        assert cfg.In(n, c);
        assert DoneIn(K)(l) == if Done(l, K) then 1 else 0;
        OneMore(m, top);
        OneMore(d, top);
      }
    }
  }

  lemma FirstTickCharges(cfg: Config, s: State, c: nat, e: nat, K: nat)
    requires cfg.interval >= 1 && s.Shape(cfg) && CoresBound(cfg, s, c, e)
    ensures Amounts(cfg, s, c) + 2 * (Finishers(cfg, s, c, K) * e) <= 2 * (Cores(cfg, c) * e)
  {
    forall i | cfg.In(i, c)
      ensures Amount(s.cores[i]) <= 2 * e
    {
      assert CoreBound(cfg, s.cores[i], e);
    }
    AmountsLeft(cfg, s.cores, c, 2 * e, K);
    var f, n := Finishers(cfg, s, c, K), Cores(cfg, c);
    Twice(f, e);
    Twice(n, e);
  }

  lemma TwoTicks(cfg: Config, K: nat)
    requires cfg.interval == 2 && K > 0 && !IsRegulation(cfg, K)
    ensures FirstTick(cfg, K)
  {
  }

  /** The invariant keeps what the cores have charged within the worst case. */
  lemma WithinWorst(cfg: Config, s: State, c: nat, e: nat, d: nat, K: nat, v: int)
    requires Setting(cfg, c, e, d, 0) && s.Shape(cfg) && CoresBound(cfg, s, c, e) && Together(cfg, s, c, K)
    requires UsageBound(cfg, s, c, e, d, K, v)
    ensures 0 <= v <= Worst(cfg, c, e, d) <= Cap(cfg, c, d) + 2 * (Cores(cfg, c) * e)
    ensures !IsRegulation(cfg, K) ==> 0 <= Residues(cfg, s, c)
    ensures !IsRegulation(cfg, K) ==> v + Residues(cfg, s, c) <= Cap(cfg, c, d) + 2 * (Cores(cfg, c) * e)
  {
    var n, b := Cores(cfg, c), Cap(cfg, c, d);
    PeakBounds(n, e, b);
    PeakIsMax(n, e, b);
    MulLe(0, n, e);
    if !IsRegulation(cfg, K) {
      WithinPeak(cfg, s, c, e, d, K, v);
      if cfg.interval == 2 { WithinTwo(cfg, s, c, e, d, K, v); }
    }
  }

  lemma WithinPeak(cfg: Config, s: State, c: nat, e: nat, d: nat, K: nat, v: int)
    requires Setting(cfg, c, e, d, 0) && s.Shape(cfg) && CoresBound(cfg, s, c, e) && Together(cfg, s, c, K)
    requires UsageBound(cfg, s, c, e, d, K, v) && !IsRegulation(cfg, K)
    ensures 0 <= Residues(cfg, s, c) && v + Residues(cfg, s, c) <= Peak(Cores(cfg, c), e, Cap(cfg, c, d))
  {
    ExposureBound(cfg, s, c, e, K);
    if NoneStopped(cfg, s, c) { StopBound(cfg, s, c, e, d, K, v); }
  }

  lemma WithinTwo(cfg: Config, s: State, c: nat, e: nat, d: nat, K: nat, v: int)
    requires Setting(cfg, c, e, d, 0) && s.Shape(cfg) && CoresBound(cfg, s, c, e) && cfg.interval == 2
    requires UsageBound(cfg, s, c, e, d, K, v) && !IsRegulation(cfg, K)
    ensures v <= 2 * (Cores(cfg, c) * e)
  {
    if K == 0 {
      MulLe(0, Cores(cfg, c), e);
    } else {
      TwoTicks(cfg, K);
      FirstTickCharges(cfg, s, c, e, K);
    }
  }

  // ---------- the steps ----------

  lemma NothingPending(cfg: Config, s: State, c: nat, K: nat)
    requires s.Shape(cfg) && Finished(cfg, s, c, K)
    ensures Amounts(cfg, s, c) == 0
  {
    TotalBounds(cfg, s.cores, c, Amount, 0);
  }

  lemma NobodyDone(cfg: Config, s: State, c: nat, K: nat)
    requires s.Shape(cfg) && forall i :: cfg.In(i, c) ==> !Done(s.cores[i], K)
    ensures Finishers(cfg, s, c, K) == 0
  {
    TotalBounds(cfg, s.cores, c, DoneIn(K), 0);
  }

  lemma NextTickBound(cfg: Config, s: State, i: nat, c: nat, e: nat, d: nat, K: nat, v: int)
    requires Setting(cfg, c, e, d, 0) && s.Shape(cfg) && Enabled(cfg, s, Swap(i)) && cfg.In(i, c)
    requires CoresBound(cfg, s, c, e) && Uniform(cfg, s, c, K) && UsageBound(cfg, s, c, e, d, K, v)
    requires Finished(cfg, s, c, K) && Together(cfg, Apply(cfg, s, Swap(i)), c, K + 1)
    ensures UsageBound(cfg, Apply(cfg, s, Swap(i)), c, e, d, K + 1, v)
  {
    EntersWith(cfg, s, i, c, K);
    WithinWorst(cfg, s, c, e, d, K, v);
    assert Cap(cfg, c, d) + Cores(cfg, c) * e <= Peak(Cores(cfg, c), e, Cap(cfg, c, d)) by {
      PeakIsMax(Cores(cfg, c), e, Cap(cfg, c, d));
    }
    if IsRegulation(cfg, K) {
      NotTwoRegulations(cfg, K);
      ResetResidues(cfg, Apply(cfg, s, Swap(i)), c, e, d);
    }
  }

  /** At the start of a tick nothing is unchecked and nobody has finished. */
  lemma EntersWith(cfg: Config, s: State, i: nat, c: nat, K: nat)
    requires cfg.Valid() && s.Shape(cfg) && Enabled(cfg, s, Swap(i)) && cfg.In(i, c)
    requires Finished(cfg, s, c, K) && Together(cfg, Apply(cfg, s, Swap(i)), c, K + 1)
    ensures var t := Apply(cfg, s, Swap(i));
      && !Finished(cfg, t, c, K + 1) && Finishers(cfg, t, c, K + 1) == 0
      && Amounts(cfg, s, c) == Amounts(cfg, t, c) == 0 && Residues(cfg, t, c) == Residues(cfg, s, c)
      && NoneStopped(cfg, s, c) == NoneStopped(cfg, t, c)
  {
    var t := Apply(cfg, s, Swap(i));
    assert !Finished(cfg, t, c, K + 1) by { assert t.cores[i].pc.Swapped?; }
    NobodyDone(cfg, t, c, K + 1);
    NothingPending(cfg, s, c, K);
    TotalSame(cfg, s.cores, t.cores, c, Amount);
    TotalSame(cfg, s.cores, t.cores, c, Residue);
    assert forall j :: cfg.In(j, c) ==> s.cores[j].Stopped() == t.cores[j].Stopped();
  }

  /** Two intervals of every core, all that is left after a reset, are within the peak. */
  lemma ResetResidues(cfg: Config, t: State, c: nat, e: nat, d: nat)
    requires Setting(cfg, c, e, d, 0) && t.Shape(cfg)
    requires forall i :: cfg.In(i, c) ==> 0 <= Residue(t.cores[i]) <= 2 * e
    ensures Residues(cfg, t, c) <= Peak(Cores(cfg, c), e, Cap(cfg, c, d))
  {
    TotalBounds(cfg, t.cores, c, Residue, 2 * e);
    Twice(Cores(cfg, c), e);
    NoneDoneYet(Cores(cfg, c), e, Cap(cfg, c, d));
  }

  lemma NoneDoneYet(n: nat, e: nat, b: nat)
    ensures 2 * (n * e) <= Peak(n, e, b)
  {
    PeakIsMax(n, e, b);
    assert Early(n, e, b, 0) == 2 * (n * e);
  }

  lemma ChargeBound(cfg: Config, s: State, i: nat, c: nat, e: nat, d: nat, g: nat, K: nat, v: int)
    requires Setting(cfg, c, e, d, g) && s.Shape(cfg) && Enabled(cfg, s, Charge(i)) && cfg.In(i, c)
    requires CoresBound(cfg, s, c, e) && Together(cfg, s, c, K) && UsageBound(cfg, s, c, e, d, K, v)
    requires InBounds(s.usage[c] - v, d, g)
    ensures Apply(cfg, s, Charge(i)).usage[c] == s.usage[c] + Residue(s.cores[i])
    ensures UsageBound(cfg, Apply(cfg, s, Charge(i)), c, e, d, K, v + Residue(s.cores[i]))
  {
    var t, k := Apply(cfg, s, Charge(i)), s.cores[i];
    assert CoreBound(cfg, k, e) && k.local == K && !IsRegulation(cfg, K) && K > 0;
    assert NoneStopped(cfg, s, c) == NoneStopped(cfg, t, c) by {
      assert forall j :: cfg.In(j, c) ==> s.cores[j].Stopped() == t.cores[j].Stopped();
    }
    TotalUpdate(cfg, s.cores, c, Amount, i, t.cores[i]);
    TotalUpdate(cfg, s.cores, c, Residue, i, t.cores[i]);
    TotalUpdate(cfg, s.cores, c, DoneIn(K), i, t.cores[i]);
    WithinWorst(cfg, s, c, e, d, K, v);
    OneOfResidues(cfg, s, i, c, e, K);
    WrapBelow(s.usage[c] + k.Residue());
  }

  lemma OneOfResidues(cfg: Config, s: State, i: nat, c: nat, e: nat, K: nat)
    requires cfg.interval >= 1 && s.Shape(cfg) && cfg.In(i, c) && CoresBound(cfg, s, c, e)
    requires Together(cfg, s, c, K) && !IsRegulation(cfg, K)
    ensures Residue(s.cores[i]) <= Residues(cfg, s, c)
  {
    var k := s.cores[i].(oldRead := s.cores[i].counter);
    var cores := s.cores[i := k];
    TotalUpdate(cfg, s.cores, c, Residue, i, k);
    CoresRoom(cfg, s, c, e, K);
    TotalBounds(cfg, cores, c, Residue, 2 * e);
  }

  lemma CheckBound(cfg: Config, s: State, i: nat, c: nat, e: nat, d: nat, g: nat, K: nat, v: int)
    requires Setting(cfg, c, e, d, g) && s.Shape(cfg) && Enabled(cfg, s, Check(i)) && cfg.In(i, c)
    requires CoresBound(cfg, s, c, e) && Uniform(cfg, s, c, K) && UsageBound(cfg, s, c, e, d, K, v)
    requires InBounds(s.usage[c] - v, d, g) && !IsRegulation(cfg, K)
    requires CoresBound(cfg, Apply(cfg, s, Check(i)), c, e) && Together(cfg, Apply(cfg, s, Check(i)), c, K)
    ensures UsageBound(cfg, Apply(cfg, s, Check(i)), c, e, d, K, v)
  {
    var t, k := Apply(cfg, s, Check(i)), s.cores[i];
    assert CoreBound(cfg, k, e) && k.local == K;
    CheckSums(cfg, s, i, c, K);
    OneMore(Finishers(cfg, s, c, K), e);
    assert 0 <= Amounts(cfg, t, c) by { ExposureBound(cfg, t, c, e, K); }
    if NoneStopped(cfg, s, c) {
      if NoneStopped(cfg, t, c) {
        CheckPassed(cfg, s, i, c);
      } else {
        StopBound(cfg, s, c, e, d, K, v);
      }
    } else {
      StaysStopped(cfg, s, i, c);
    }
  }

  lemma CheckPassed(cfg: Config, s: State, i: nat, c: nat)
    requires cfg.Valid() && s.Shape(cfg) && Enabled(cfg, s, Check(i)) && cfg.In(i, c)
    requires NoneStopped(cfg, s, c) && NoneStopped(cfg, Apply(cfg, s, Check(i)), c)
    ensures s.usage[c] <= cfg.budget[c]
  {
    assert !Apply(cfg, s, Check(i)).cores[i].throttled && !s.cores[i].throttled;
  }

  lemma StaysStopped(cfg: Config, s: State, i: nat, c: nat)
    requires cfg.Valid() && s.Shape(cfg) && Enabled(cfg, s, Check(i)) && !NoneStopped(cfg, s, c)
    ensures !NoneStopped(cfg, Apply(cfg, s, Check(i)), c)
  {
    var j :| cfg.In(j, c) && s.cores[j].Stopped();
    assert Apply(cfg, s, Check(i)).cores[j].Stopped();
  }

  /** A check moves its core's charge from unchecked to settled. */
  lemma CheckSums(cfg: Config, s: State, i: nat, c: nat, K: nat)
    requires cfg.Valid() && s.Shape(cfg) && Enabled(cfg, s, Check(i)) && cfg.In(i, c) && s.cores[i].local == K
    ensures var t := Apply(cfg, s, Check(i));
      && Amounts(cfg, t, c) == Amounts(cfg, s, c) - s.cores[i].pc.amount
      && Residues(cfg, t, c) == Residues(cfg, s, c)
      && Finishers(cfg, t, c, K) == Finishers(cfg, s, c, K) + 1
  {
    var t, k := Apply(cfg, s, Check(i)), s.cores[i].(pc := Idle);
    var cores := s.cores[i := k];
    TotalUpdate(cfg, s.cores, c, Amount, i, k);
    TotalUpdate(cfg, s.cores, c, Residue, i, k);
    TotalUpdate(cfg, s.cores, c, DoneIn(K), i, k);
    TotalSame(cfg, cores, t.cores, c, Amount);
    TotalSame(cfg, cores, t.cores, c, Residue);
    TotalSame(cfg, cores, t.cores, c, DoneIn(K));
  }

  lemma RegulateBound(cfg: Config, s: State, i: nat, c: nat, e: nat, d: nat, K: nat, v: int)
    requires Setting(cfg, c, e, d, 0) && s.Shape(cfg) && Enabled(cfg, s, Regulate(i)) && cfg.In(i, c)
    requires Together(cfg, s, c, K) && UsageBound(cfg, s, c, e, d, K, v) && s.cores[i].local == K
    ensures UsageBound(cfg, Apply(cfg, s, Regulate(i)), c, e, d, K, if cfg.leader[c] == i then 0 else v)
  {
    var t := Apply(cfg, s, Regulate(i));
    assert !Finished(cfg, s, c, K);
    if Finished(cfg, t, c, K) && cfg.leader[c] != i {
      assert LeaderDone(cfg, t, c, K);
      assert LeaderDone(cfg, s, c, K);
    }
    WorstNotNegative(cfg, c, e, d);
  }

  lemma WorstNotNegative(cfg: Config, c: nat, e: nat, d: nat)
    requires c < |cfg.budget| && 0 <= cfg.budget[c]
    ensures 0 <= Worst(cfg, c, e, d)
  {
    PeakIsMax(Cores(cfg, c), e, Cap(cfg, c, d));
  }

  lemma GpuCheckBound(cfg: Config, s: State, a: Action, c: nat, e: nat, d: nat, K: nat, v: int)
    requires Setting(cfg, c, e, d, 0) && s.Shape(cfg) && Enabled(cfg, s, a) && a.GpuCheck? && a.cluster == c
    requires CoresBound(cfg, s, c, e) && Uniform(cfg, s, c, K) && UsageBound(cfg, s, c, e, d, K, v)
    requires IsRegulation(cfg, K) ==> Finished(cfg, s, c, K)
    ensures UsageBound(cfg, Apply(cfg, s, a), c, e, d, K, v)
  {
    var t := Apply(cfg, s, a);
    if IsRegulation(cfg, K) {
      assert Finished(cfg, t, c, K);
    } else {
      TotalSame(cfg, s.cores, t.cores, c, Amount);
      TotalSame(cfg, s.cores, t.cores, c, Residue);
      TotalSame(cfg, s.cores, t.cores, c, DoneIn(K));
      if NoneStopped(cfg, s, c) {
        if !NoneStopped(cfg, t, c) { StopBound(cfg, s, c, e, d, K, v); }
      } else {
        assert !NoneStopped(cfg, t, c);
      }
    }
  }

  /** A step that is neither a body nor a check nor the start of a new tick for the cluster. */
  predicate Quiet(cfg: Config, s: State, a: Action, c: nat, K: nat)
    requires s.Shape(cfg) && cfg.Valid() && Enabled(cfg, s, a)
  {
    && (a.Regulate? || a.Charge? || a.Check? ==> !cfg.In(a.core, c))
    && (a.GpuCheck? ==> a.cluster != c)
    && (a.Swap? && cfg.In(a.core, c) ==> s.cores[a.core].local != K)
  }

  /** What such a step leaves alone in each of the cluster's cores. */
  lemma QuietCores(cfg: Config, s: State, a: Action, c: nat, e: nat, K: nat)
    requires cfg.Valid() && s.Shape(cfg) && Enabled(cfg, s, a) && Together(cfg, s, c, K)
    requires Demand(cfg, s, a, c, e) && Quiet(cfg, s, a, c, K) && InStep(cfg, s, a, c)
    ensures forall j :: cfg.In(j, c) ==>
      var k, l := s.cores[j], Apply(cfg, s, a).cores[j];
      && Amount(l) == Amount(k)
      && l.Stopped() == k.Stopped()
      && (Residue(l) == Residue(k) || !k.Stopped())
      && Done(l, K) == Done(k, K)
  {
  }

  lemma QuietBound(cfg: Config, s: State, a: Action, c: nat, e: nat, d: nat, K: nat, v: int)
    requires Setting(cfg, c, e, d, 0) && s.Shape(cfg) && Enabled(cfg, s, a)
    requires Uniform(cfg, s, c, K) && UsageBound(cfg, s, c, e, d, K, v)
    requires InStep(cfg, s, a, c) && Demand(cfg, s, a, c, e) && Quiet(cfg, s, a, c, K)
    ensures UsageBound(cfg, Apply(cfg, s, a), c, e, d, K, v)
  {
    var t := Apply(cfg, s, a);
    QuietCores(cfg, s, a, c, e, K);
    assert NoneStopped(cfg, s, c) == NoneStopped(cfg, t, c);
    assert Finished(cfg, s, c, K) == Finished(cfg, t, c, K) by {
      FinishedIsDone(cfg, s, c, K);
      FinishedIsDone(cfg, t, c, K);
    }
    if !IsRegulation(cfg, K) {
      TotalSame(cfg, s.cores, t.cores, c, Amount);
      TotalSame(cfg, s.cores, t.cores, c, DoneIn(K));
      if AllStopped(cfg, s, c) { TotalSame(cfg, s.cores, t.cores, c, Residue); }
    }
  }

  lemma FinishedIsDone(cfg: Config, s: State, c: nat, K: nat)
    requires s.Shape(cfg)
    ensures Finished(cfg, s, c, K) <==> forall i :: cfg.In(i, c) ==> Done(s.cores[i], K)
  {
  }

  /** The usage is what the cores have charged, `v`, and what receivers have added, both since the
      reset; a step keeps this split. */
  lemma QuietUsage(cfg: Config, s: State, a: Action, c: nat, e: nat, d: nat, g: nat, received: int)
    requires Setting(cfg, c, e, d, g) && s.Shape(cfg) && Enabled(cfg, s, a)
    requires a.Regulate? || a.Charge? || a.Check? ==> !cfg.In(a.core, c)
    requires 0 <= s.usage[c] - received <= Cap(cfg, c, d) + 2 * (Cores(cfg, c) * e)
    requires InBounds(SinceReset(cfg, a, received, c), d, g)
    ensures Apply(cfg, s, a).usage[c] - SinceReset(cfg, a, received, c) == s.usage[c] - received
  {
    if a.GpuAdd? && a.cluster == c { WrapBelow(s.usage[c] + a.amount); }
  }

  lemma UsageStep(cfg: Config, s: State, a: Action, c: nat, e: nat, d: nat, g: nat, K: nat, received: int)
    requires Setting(cfg, c, e, d, g) && s.Shape(cfg) && Enabled(cfg, s, a)
    requires Uniform(cfg, s, c, K) && CoresBound(cfg, s, c, e) && UsageBound(cfg, s, c, e, d, K, s.usage[c] - received)
    requires InBounds(received, d, g) && InBounds(SinceReset(cfg, a, received, c), d, g)
    requires InStep(cfg, s, a, c) && Prompt(cfg, s, a, c) && GpuOutside(cfg, s, a, c) && Demand(cfg, s, a, c, e)
    ensures Uniform(cfg, Apply(cfg, s, a), c, NextTick(cfg, s, a, c, K))
    ensures CoresBound(cfg, Apply(cfg, s, a), c, e)
    ensures UsageBound(cfg, Apply(cfg, s, a), c, e, d, NextTick(cfg, s, a, c, K),
                       Apply(cfg, s, a).usage[c] - SinceReset(cfg, a, received, c))
  {
    var v := s.usage[c] - received;
    UniformStep(cfg, s, a, c, K);
    TogetherStep(cfg, s, a, c, K);
    CoresStep(cfg, s, a, c, e);
    WithinWorst(cfg, s, c, e, d, K, v);
    if (a.Regulate? || a.Charge? || a.Check?) && cfg.In(a.core, c) {
      BodyBound(cfg, s, a, c, e, d, g, K, received);
    } else {
      QuietUsage(cfg, s, a, c, e, d, g, received);
      if a.GpuCheck? && a.cluster == c {
        if IsRegulation(cfg, K) {
          NotTwoRegulations(cfg, K);
          MidRegulationEnds(cfg, s, c, K);
        }
        GpuCheckBound(cfg, s, a, c, e, d, K, v);
      } else if a.Swap? && cfg.In(a.core, c) && s.cores[a.core].local == K {
        NextTickBound(cfg, s, a.core, c, e, d, K, v);
      } else {
        QuietBound(cfg, s, a, c, e, d, K, v);
      }
    }
  }

  lemma BodyBound(cfg: Config, s: State, a: Action, c: nat, e: nat, d: nat, g: nat, K: nat, received: int)
    requires Setting(cfg, c, e, d, g) && s.Shape(cfg) && Enabled(cfg, s, a)
    requires (a.Regulate? || a.Charge? || a.Check?) && cfg.In(a.core, c)
    requires Uniform(cfg, s, c, K) && CoresBound(cfg, s, c, e) && UsageBound(cfg, s, c, e, d, K, s.usage[c] - received)
    requires InBounds(received, d, g)
    requires CoresBound(cfg, Apply(cfg, s, a), c, e) && Together(cfg, Apply(cfg, s, a), c, K)
    ensures UsageBound(cfg, Apply(cfg, s, a), c, e, d, K,
                       Apply(cfg, s, a).usage[c] - SinceReset(cfg, a, received, c))
  {
    var v := s.usage[c] - received;
    assert s.cores[a.core].local == K;
    match a
    case Regulate(i) => RegulateBound(cfg, s, i, c, e, d, K, v);
    case Charge(i) => ChargeBound(cfg, s, i, c, e, d, g, K, v);
    case Check(i) =>
      assert !IsRegulation(cfg, K);
      CheckBound(cfg, s, i, c, e, d, g, K, v);
  }

  // ---------- runs ----------

  lemma {:induction false} BoundsInEveryRun(cfg: Config, r: Run, n: nat, c: nat, e: nat, d: nat, g: nat)
      returns (K: nat)
    requires Setting(cfg, c, e, d, g) && r.Valid(cfg) && n <= |r.actions| && Admissible(cfg, r, n, c, e, d, g)
    ensures Uniform(cfg, r.states[n], c, K) && CoresBound(cfg, r.states[n], c, e)
    ensures UsageBound(cfg, r.states[n], c, e, d, K, r.states[n].usage[c] - Received(cfg, r, n, c))
  {
    if n == 0 {
      K := 0;
      NothingPending(cfg, r.states[0], c, 0);
    } else {
      K := BoundsInEveryRun(cfg, r, n - 1, c, e, d, g);
      StepMeets(cfg, r, n, n - 1, c, e, d, g);
      UsageStep(cfg, r.states[n - 1], r.actions[n - 1], c, e, d, g, K, Received(cfg, r, n - 1, c));
      K := NextTick(cfg, r.states[n - 1], r.actions[n - 1], c, K);
    }
  }

  /** A step of an admissible run meets all hypotheses of `UsageStep`. */
  lemma StepMeets(cfg: Config, r: Run, n: nat, k: nat, c: nat, e: nat, d: nat, g: nat)
    requires cfg.Valid() && r.Valid(cfg) && k < n <= |r.actions|
    requires c < |cfg.budget| && Admissible(cfg, r, n, c, e, d, g)
    ensures var s, a := r.states[k], r.actions[k];
      && r.Step(cfg, k) && InStep(cfg, s, a, c) && Prompt(cfg, s, a, c)
      && GpuOutside(cfg, s, a, c) && Demand(cfg, s, a, c, e)
    ensures InBounds(Received(cfg, r, k, c), d, g)
    ensures InBounds(SinceReset(cfg, r.actions[k], Received(cfg, r, k, c), c), d, g)
  {
    PunctualMeansInStep(cfg, r, n, c);
    assert InStepAt(cfg, r, k, c) && DisciplinedAt(cfg, r, k, c) && DemandAt(cfg, r, k, c, e);
    assert InBounds(Received(cfg, r, k + 1, c), d, g);
  }

  /** In every reachable state the usage of a cluster exceeds the worst that its cores can reach by at
      most what receivers may add between two resets. */
  lemma BudgetGuarantee(cfg: Config, r: Run, n: nat, c: nat, e: nat, d: nat, g: nat)
    requires Setting(cfg, c, e, d, g) && r.Valid(cfg) && n <= |r.actions| && Admissible(cfg, r, n, c, e, d, g)
    ensures -(d as int) <= r.states[n].usage[c] <= Worst(cfg, c, e, d) + g
  {
    var K := BoundsInEveryRun(cfg, r, n, c, e, d, g);
    assert InBounds(Received(cfg, r, n, c), d, g);
    WithinWorst(cfg, r.states[n], c, e, d, K, r.states[n].usage[c] - Received(cfg, r, n, c));
  }

  /** Two intervals of each of the n cores for every budget; one interval from a budget of 2n - 1
      intervals on, or of n intervals when a period has only two ticks. */
  lemma OvershootInIntervals(cfg: Config, r: Run, n: nat, c: nat, e: nat, d: nat, g: nat)
    requires Setting(cfg, c, e, d, g) && r.Valid(cfg) && n <= |r.actions| && Admissible(cfg, r, n, c, e, d, g)
    ensures r.states[n].usage[c] <= Cap(cfg, c, d) + 2 * (Cores(cfg, c) * e) + g
    ensures EnoughForOne(cfg, c, e, d) ==> r.states[n].usage[c] <= Cap(cfg, c, d) + Cores(cfg, c) * e + g
  {
    BudgetGuarantee(cfg, r, n, c, e, d, g);
    SomeCore(cfg, c, cfg.leader[c], |cfg.clusterOf|);
    WorstInIntervals(cfg, c, e, d);
  }

  predicate EnoughForOne(cfg: Config, c: nat, e: nat, d: nat)
    requires c < |cfg.budget|
  {
    Cap(cfg, c, d) >= if cfg.interval == 2 then Cores(cfg, c) * e else 2 * (Cores(cfg, c) * e) - e
  }

  lemma WorstInIntervals(cfg: Config, c: nat, e: nat, d: nat)
    requires c < |cfg.budget| && 0 <= cfg.budget[c] && Cores(cfg, c) > 0
    ensures Worst(cfg, c, e, d) <= Cap(cfg, c, d) + 2 * (Cores(cfg, c) * e)
    ensures Worst(cfg, c, e, d) <= Cap(cfg, c, d) + Cores(cfg, c) * e <==> EnoughForOne(cfg, c, e, d)
  {
    PeakBounds(Cores(cfg, c), e, Cap(cfg, c, d));
    if e > 0 {
      OneIntervalFrom(Cores(cfg, c), e, Cap(cfg, c, d));
    }
  }

  lemma {:induction false} SomeCore(cfg: Config, c: nat, i: nat, n: nat)
    requires i < n <= |cfg.clusterOf| && cfg.In(i, c)
    ensures Size(cfg, c, n) > 0
  {
    if i < n - 1 { SomeCore(cfg, c, i, n - 1); }
  }
}
