/**
 The regulator as the module runs it: per-core and per-cluster structures updated in place by the timer
 callback, the throttle interrupt and the receiver thread. What each of them does, undisturbed, is what
 the state machine does in the corresponding steps.
 */
module Kernel {
  import opened MachineInts
  import opened Regulator

  /** The callback of core `i`, undisturbed. */
  function Callback(cfg: Config, s: State, i: nat): State
    requires cfg.Valid() && s.Shape(cfg) && Enabled(cfg, s, Swap(i))
  {
    var t := Apply(cfg, Apply(cfg, s, Swap(i)), Fetch(i));
    if IsRegulation(cfg, t.cores[i].local) then Apply(cfg, t, Regulate(i))
    else Apply(cfg, Apply(cfg, t, Charge(i)), Check(i))
  }

  // ---------- the module's own state ----------

  /** `struct core_info`: the fields that regulation uses. */
  class CoreInfo {
    var ticks: nat           // aggregation_period_cnt
    var oldRead: int         // old_read_val
    var throttledTask: bool  // whether throttled_task is set
    var expiry: int          // of hr_timer
  }

  /** `struct cluster_info`. */
  class ClusterInfo {
    var usage: int
    var isThrottled: bool
    var regulations: nat
  }

  class Module {
    const cfg: Config
    const cores: seq<CoreInfo>
    const clusters: seq<ClusterInfo>
    var count: nat
    var interrupts: set<nat>  // cpus to which a throttle interrupt is under way

    ghost predicate Valid() {
      && cfg.Valid() && |cores| == |cfg.clusterOf| && |clusters| == |cfg.budget|
      && (forall i, j :: 0 <= i < j < |cores| ==> cores[i] != cores[j])
      && (forall c, d :: 0 <= c < d < |clusters| ==> clusters[c] != clusters[d])
    }

    /** The module's state is what the machine's state says. Where a core stands in its callback and the
        ledgers are no part of the module's state. */
    ghost predicate Agrees(s: State)
      reads this, cores, clusters
    {
      && Valid() && s.Shape(cfg) && count == s.count
      && (forall i :: 0 <= i < |cores| ==>
            && cores[i].ticks == s.cores[i].local && cores[i].oldRead == s.cores[i].oldRead
            && cores[i].expiry == s.cores[i].due && cores[i].throttledTask == s.cores[i].throttled
            && (i in interrupts <==> s.cores[i].ipi))
      && (forall c :: 0 <= c < |clusters| ==>
            clusters[c].usage == s.usage[c] && clusters[c].regulations == s.regulations[c])
    }

    /** Throttled, or about to be. */
    predicate Stopped(i: nat)
      requires i < |cores|
      reads this, cores
    {
      cores[i].throttledTask || i in interrupts
    }

    /** Module initialisation, on structures that are already allocated. */
    constructor (cfg: Config, cores: seq<CoreInfo>, clusters: seq<ClusterInfo>)
      requires cfg.Valid() && |cores| == |cfg.clusterOf| && |clusters| == |cfg.budget|
      requires forall i, j :: 0 <= i < j < |cores| ==> cores[i] != cores[j]
      requires forall c, d :: 0 <= c < d < |clusters| ==> clusters[c] != clusters[d]
      modifies cores, clusters
      ensures this.cfg == cfg && this.cores == cores && this.clusters == clusters
      ensures Agrees(Init(cfg)) && forall c :: 0 <= c < |clusters| ==> !clusters[c].isThrottled
    {
      this.cfg, this.cores, this.clusters := cfg, cores, clusters;
      count, interrupts := 0, {};
      new;
      for i := 0 to |cores|
        invariant count == 0 && interrupts == {}
        invariant forall k :: 0 <= k < i ==>
          cores[k].ticks == 0 && cores[k].oldRead == 0 && !cores[k].throttledTask && cores[k].expiry == cfg.start
      {
        var core := cores[i];
        core.ticks, core.oldRead, core.throttledTask, core.expiry := 0, 0, false, cfg.start;
      }
      for c := 0 to |clusters|
        invariant count == 0 && interrupts == {}
        invariant forall k :: 0 <= k < |cores| ==>
          cores[k].ticks == 0 && cores[k].oldRead == 0 && !cores[k].throttledTask && cores[k].expiry == cfg.start
        invariant forall d :: 0 <= d < c ==>
          clusters[d].usage == 0 && clusters[d].regulations == 0 && !clusters[d].isThrottled
      {
        var cluster := clusters[c];
        cluster.usage, cluster.regulations, cluster.isThrottled := 0, 0, false;
      }
    }

    /** `cl_mem_reg_on_each_cpu_mask` with `__throttle_core`: afterwards every cpu of the cluster is
        throttled or about to be, and no other cpu is touched. */
    method OnEachCpuMask(c: nat, self: nat)
      requires Valid() && self < |cores|
      modifies this`interrupts, cores[self]
      ensures interrupts == old(interrupts) + (set j | 0 <= j < |cores| && cfg.In(j, c) && j != self)
      ensures cores[self].throttledTask == (old(cores[self].throttledTask) || cfg.In(self, c))
      ensures cores[self].ticks == old(cores[self].ticks) && cores[self].oldRead == old(cores[self].oldRead)
      ensures cores[self].expiry == old(cores[self].expiry)
    {
      for j := 0 to |cores|
        invariant interrupts == old(interrupts) + (set i | 0 <= i < j && cfg.In(i, c) && i != self)
        invariant unchanged(cores[self])
      {
        if cfg.In(j, c) && j != self {
          interrupts := interrupts + {j};
        }
      }
      if cfg.In(self, c) {
        cores[self].throttledTask := true;
      }
    }

    /** `__throttle_core` on a cpu that a throttle interrupt reaches. */
    method Interrupt(cpu: nat, ghost s: State)
      requires Agrees(s) && cpu in interrupts && cpu < |cores|
      modifies this`interrupts, cores[cpu]
      ensures Enabled(cfg, s, Deliver(cpu)) && Agrees(Apply(cfg, s, Deliver(cpu)))
    {
      interrupts := interrupts - {cpu};
      cores[cpu].throttledTask := true;
    }

    /** `timer_callback_master` on `cpu`, whose event counter stands at `reading`. */
    method TimerCallback(cpu: nat, reading: nat, ghost s: State)
      requires Agrees(s) && Enabled(cfg, s, Swap(cpu)) && s.cores[cpu].counter == reading
      modifies this`count, this`interrupts, cores[cpu], clusters[cfg.clusterOf[cpu]]
      ensures Agrees(Callback(cfg, s, cpu))
    {
      var core := cores[cpu];
      if count == core.ticks {
        count := core.ticks + 1;
      }
      core.ticks := count;
      core.expiry := cfg.start + core.ticks * cfg.periodNs;
      ghost var t := Apply(cfg, Apply(cfg, s, Swap(cpu)), Fetch(cpu));
      assert Agrees(t);
      if core.ticks % cfg.interval == 1 {
        RegulationPeriod(cpu, t);
      } else {
        AggregationPeriod(cpu, reading, t);
      }
    }

    /** The core runs again, and the usage is wiped if the core leads its cluster. */
    method RegulationPeriod(cpu: nat, ghost s: State)
      requires Agrees(s) && Enabled(cfg, s, Regulate(cpu))
      modifies cores[cpu], clusters[cfg.clusterOf[cpu]]
      ensures Agrees(Apply(cfg, s, Regulate(cpu)))
      ensures !cores[cpu].throttledTask && !clusters[cfg.clusterOf[cpu]].isThrottled
      ensures forall j :: 0 <= j < |cores| && j != cpu ==> Stopped(j) == old(Stopped(j))
    {
      var cluster := clusters[cfg.clusterOf[cpu]];
      cores[cpu].throttledTask := false;
      cluster.isThrottled := false;
      if cfg.leader[cfg.clusterOf[cpu]] == cpu {
        cluster.usage := 0;
        cluster.regulations := cluster.regulations + 1;
      }
    }

    method ChargeEvents(cpu: nat, reading: nat, ghost s: State)
      requires Agrees(s) && Enabled(cfg, s, Charge(cpu)) && s.cores[cpu].counter == reading
      modifies cores[cpu], clusters[cfg.clusterOf[cpu]]
      ensures Agrees(Apply(cfg, s, Charge(cpu))) && cores[cpu].oldRead == reading
      ensures cores[cpu].throttledTask == old(cores[cpu].throttledTask)
      ensures var cluster := clusters[cfg.clusterOf[cpu]];
        && cluster.usage == Wrap32(old(cluster.usage) + reading - old(cores[cpu].oldRead))
        && cluster.isThrottled == old(cluster.isThrottled)
    {
      var core, cluster := cores[cpu], clusters[cfg.clusterOf[cpu]];
      var used := reading - core.oldRead;
      core.oldRead := core.oldRead + used;
      cluster.usage := Wrap32(cluster.usage + used);
    }

    /** Every event up to `reading` is charged; a running core that finds the cluster over budget
        leaves no core of it running. A throttled core, or one that finds it within the budget, stops
        nobody and sends no interrupt. */
    method AggregationPeriod(cpu: nat, reading: nat, ghost s: State)
      requires Agrees(s) && Enabled(cfg, s, Charge(cpu)) && s.cores[cpu].counter == reading
      modifies this`interrupts, cores[cpu], clusters[cfg.clusterOf[cpu]]
      ensures Agrees(Apply(cfg, Apply(cfg, s, Charge(cpu)), Check(cpu)))
      ensures cores[cpu].oldRead == reading
      ensures clusters[cfg.clusterOf[cpu]].usage ==
        Wrap32(old(clusters[cfg.clusterOf[cpu]].usage) + reading - old(cores[cpu].oldRead))
      ensures var c := cfg.clusterOf[cpu];
        var over := !old(cores[cpu].throttledTask) && clusters[c].usage > cfg.budget[c];
        && (forall j :: 0 <= j < |cores| ==> Stopped(j) == (old(Stopped(j)) || (over && cfg.In(j, c))))
        && (clusters[c].isThrottled == (old(clusters[c].isThrottled) || (over && cfg.leader[c] == cpu)))
        && (!over ==> interrupts == old(interrupts))
    {
      ChargeEvents(cpu, reading, s);
      CheckBudget(cpu, Apply(cfg, s, Charge(cpu)));
    }

    /** The end of the aggregation body: a throttled core leaves early. */
    method CheckBudget(cpu: nat, ghost s: State)
      requires Agrees(s) && Enabled(cfg, s, Check(cpu))
      modifies this`interrupts, cores[cpu], clusters[cfg.clusterOf[cpu]]
      ensures Agrees(Apply(cfg, s, Check(cpu))) && cores[cpu].oldRead == old(cores[cpu].oldRead)
      ensures clusters[cfg.clusterOf[cpu]].usage == old(clusters[cfg.clusterOf[cpu]].usage)
      ensures var c := cfg.clusterOf[cpu];
        var over := !old(cores[cpu].throttledTask) && clusters[c].usage > cfg.budget[c];
        && (forall j :: 0 <= j < |cores| ==> Stopped(j) == (old(Stopped(j)) || (over && cfg.In(j, c))))
        && (clusters[c].isThrottled == (old(clusters[c].isThrottled) || (over && cfg.leader[c] == cpu)))
        && (!over ==> interrupts == old(interrupts))
    {
      var c := cfg.clusterOf[cpu];
      if cores[cpu].throttledTask {
        return;
      }
      if clusters[c].usage > cfg.budget[c] {
        if cfg.leader[c] == cpu {
          clusters[c].isThrottled := true;
        }
        OnEachCpuMask(c, cpu);
      }
    }

    /** What the receiver thread on `cpu` does with one charge for cluster `c`: over budget, no core of
        the cluster stays running; within the budget, every core stays as it is. */
    method Receive(c: nat, cpu: nat, charge: int, ghost s: State)
      requires Agrees(s) && c < |clusters| && cpu < |cores|
      modifies this`interrupts, cores[cpu], clusters[c]
      ensures Agrees(Apply(cfg, Apply(cfg, s, GpuAdd(c, charge)), GpuCheck(c, cpu)))
      ensures clusters[c].usage == Wrap32(old(clusters[c].usage) + charge)
      ensures clusters[c].isThrottled == old(clusters[c].isThrottled)
      ensures forall j :: 0 <= j < |cores| ==>
        Stopped(j) == (old(Stopped(j)) || (clusters[c].usage > cfg.budget[c] && cfg.In(j, c)))
      ensures clusters[c].usage <= cfg.budget[c] ==> interrupts == old(interrupts)
    {
      clusters[c].usage := Wrap32(clusters[c].usage + charge);
      assert Agrees(Apply(cfg, s, GpuAdd(c, charge)));
      if clusters[c].usage > cfg.budget[c] {
        OnEachCpuMask(c, cpu);
      }
    }
  }

  /** What an undisturbed callback amounts to, tick by tick. */
  lemma CallbackLaw(cfg: Config, s: State, i: nat)
    requires cfg.Valid() && s.Shape(cfg) && Enabled(cfg, s, Swap(i)) && s.cores[i].local <= s.count
    ensures var t, c := Callback(cfg, s, i), cfg.clusterOf[i];
      var tick := t.cores[i].local;
      && t.cores[i].pc.Idle?
      && tick > s.cores[i].local && tick == t.count >= s.count
      && t.cores[i].due == cfg.start + tick * cfg.periodNs
      && (forall d :: 0 <= d < |cfg.budget| && d != c ==>
            t.usage[d] == s.usage[d] && t.regulations[d] == s.regulations[d])
      && t.cores[i].ipi == s.cores[i].ipi && t.cores[i].counter == s.cores[i].counter
      && (tick % cfg.interval == 1 ==>
            && !t.cores[i].throttled
            && t.usage[c] == (if cfg.leader[c] == i then 0 else s.usage[c])
            && t.regulations[c] == s.regulations[c] + (if cfg.leader[c] == i then 1 else 0)
            && t.cores[i].oldRead == s.cores[i].oldRead
            && forall j :: 0 <= j < |s.cores| && j != i ==> t.cores[j] == s.cores[j])
      && (tick % cfg.interval != 1 ==>
            var over := t.usage[c] > cfg.budget[c] && !s.cores[i].throttled;
            && t.cores[i].oldRead == s.cores[i].counter
            && t.usage[c] == Wrap32(s.usage[c] + s.cores[i].Residue())
            && t.regulations[c] == s.regulations[c]
            && t.cores[i].throttled == (s.cores[i].throttled || over)
            && forall j :: 0 <= j < |s.cores| && j != i ==>
                 t.cores[j] == if over && cfg.In(j, c) then s.cores[j].(ipi := true) else s.cores[j])
  {
    var s1 := Apply(cfg, s, Swap(i));
    var s2 := Apply(cfg, s1, Fetch(i));
    if !IsRegulation(cfg, s2.cores[i].local) {
      var s3 := Apply(cfg, s2, Charge(i));
      assert s3.cores[i].Residue() == 0;
    }
  }
}
