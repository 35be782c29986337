/**
 The cluster regulator as a state machine. Every core runs a timer callback that is cut into the
 accesses other cores can observe; a step of the machine is one such access, and a run is any
 interleaving of them.
 */
module Regulator {
  import opened MachineInts

  /** Fixed once the timers are started: cluster of each core, leader and budget of each cluster,
      M (aggregation ticks per regulation period), T_A in nanoseconds and the common start time. */
  datatype Config = Config(
    clusterOf: seq<nat>, leader: seq<int>, budget: seq<int>, interval: nat, periodNs: nat, start: int)
  {
    ghost predicate Valid() {
      && |leader| == |budget|
      && interval >= 1
      && periodNs >= 1
      && forall i :: 0 <= i < |clusterOf| ==> clusterOf[i] < |budget|
    }

    predicate In(i: int, c: nat) {
      0 <= i < |clusterOf| && clusterOf[i] == c
    }
  }

  /** Where a core stands in its callback: outside; after the compare-and-swap; after reading the
      shared count back and arming the timer; after adding `amount` to the cluster's usage. */
  datatype Pc = Idle | Swapped | Fetched | Charged(amount: int)

  /** `charged` and `gen` are ledgers: events this core ever added to a usage, and events
      generated since the body of its last callback. */
  datatype Core = Core(
    pc: Pc, local: nat, due: int, throttled: bool, ipi: bool,
    counter: nat, oldRead: int, charged: int, gen: nat)
  {
    /** Throttled, or about to be by an interrupt already sent. */
    predicate Stopped() {
      throttled || ipi
    }

    function Residue(): int {
      counter - oldRead
    }
  }

  /** `wiped` and `gpuCharged` are ledgers: what leader resets discarded, what receivers added. */
  datatype State = State(
    count: nat, cores: seq<Core>, usage: seq<int>, regulations: seq<nat>, now: int,
    wiped: seq<int>, gpuCharged: seq<int>)
  {
    ghost predicate Shape(cfg: Config) {
      && |cores| == |cfg.clusterOf|
      && |usage| == |regulations| == |wiped| == |gpuCharged| == |cfg.budget|
    }
  }

  datatype Action =
    | Swap(core: nat)               // timer fires; compare-and-swap on the shared count
    | Fetch(core: nat)              // read the shared count back, arm the next timer
    | Regulate(core: nat)           // body of a regulation tick
    | Charge(core: nat)             // read the counter, add the new events to the usage
    | Check(core: nat)              // compare usage with budget, throttle the cluster
    | Deliver(core: nat)            // a throttle interrupt arrives
    | Events(core: nat, n: nat)     // the core misses the cache n times
    | GpuAdd(cluster: nat, amount: int)  // a receiver thread adds its charge
    | GpuCheck(cluster: nat, cpu: nat)
    | Advance(ns: nat)

  function InitCore(cfg: Config): Core {
    Core(Idle, 0, cfg.start, false, false, 0, 0, 0, 0)
  }

  function Init(cfg: Config): State {
    var zeros := seq(|cfg.budget|, c => 0);
    State(0, seq(|cfg.clusterOf|, i => InitCore(cfg)), zeros, seq(|cfg.budget|, c => 0), cfg.start, zeros, zeros)
  }

  predicate IsRegulation(cfg: Config, tick: nat)
    requires cfg.interval >= 1
  {
    tick % cfg.interval == 1
  }

  ghost predicate Enabled(cfg: Config, s: State, a: Action)
    requires cfg.Valid() && s.Shape(cfg)
  {
    match a
    case Swap(i) => i < |s.cores| && s.cores[i].pc.Idle? && s.cores[i].due <= s.now
    case Fetch(i) => i < |s.cores| && s.cores[i].pc.Swapped?
    case Regulate(i) => i < |s.cores| && s.cores[i].pc.Fetched? && IsRegulation(cfg, s.cores[i].local)
    case Charge(i) => i < |s.cores| && s.cores[i].pc.Fetched? && !IsRegulation(cfg, s.cores[i].local)
    case Check(i) => i < |s.cores| && s.cores[i].pc.Charged?
    case Deliver(i) => i < |s.cores| && s.cores[i].ipi
    case Events(i, n) => i < |s.cores|
    case GpuAdd(c, n) => c < |s.usage|
    case GpuCheck(c, cpu) => c < |s.usage| && cpu < |s.cores|
    case Advance(ns) => true
  }

  /** `cl_mem_reg_on_each_cpu_mask`: the calling cpu, if it is in the mask, is throttled directly,
      every other cpu of the cluster by an interrupt that arrives later. */
  function ThrottleCluster(cfg: Config, cores: seq<Core>, c: nat, self: nat): (r: seq<Core>)
    requires |cores| == |cfg.clusterOf|
    ensures |r| == |cores|
    ensures forall j :: 0 <= j < |r| ==>
      r[j] == (if !cfg.In(j, c) then cores[j]
               else if j == self then cores[j].(throttled := true)
               else cores[j].(ipi := true))
  {
    seq(|cores|, j requires 0 <= j < |cores| =>
      if !cfg.In(j, c) then cores[j]
      else if j == self then cores[j].(throttled := true)
      else cores[j].(ipi := true))
  }

  function Apply(cfg: Config, s: State, a: Action): (t: State)
    requires cfg.Valid() && s.Shape(cfg) && Enabled(cfg, s, a)
    ensures t.Shape(cfg)
  {
    match a
    case Swap(i) =>
      var k := s.cores[i];
      s.(count := if s.count == k.local then k.local + 1 else s.count,
         cores := s.cores[i := k.(pc := Swapped)])
    case Fetch(i) =>
      var k := s.cores[i];
      s.(cores := s.cores[i := k.(pc := Fetched, local := s.count, due := cfg.start + s.count * cfg.periodNs)])
    case Regulate(i) =>
      var k, c := s.cores[i], cfg.clusterOf[i];
      var t := s.(cores := s.cores[i := k.(pc := Idle, throttled := false, gen := 0)]);
      if cfg.leader[c] == i then
        t.(usage := s.usage[c := 0], regulations := s.regulations[c := s.regulations[c] + 1],
           wiped := s.wiped[c := s.wiped[c] + s.usage[c]])
      else t
    case Charge(i) =>
      var k, c := s.cores[i], cfg.clusterOf[i];
      var used := k.counter - k.oldRead;
      s.(cores := s.cores[i := k.(pc := Charged(used), oldRead := k.oldRead + used,
                                  charged := k.charged + used, gen := 0)],
         usage := s.usage[c := Wrap32(s.usage[c] + used)])
    case Check(i) =>
      var k, c := s.cores[i], cfg.clusterOf[i];
      var cores := s.cores[i := k.(pc := Idle)];
      if !k.throttled && s.usage[c] > cfg.budget[c]
      then s.(cores := ThrottleCluster(cfg, cores, c, i))
      else s.(cores := cores)
    case Deliver(i) =>
      s.(cores := s.cores[i := s.cores[i].(ipi := false, throttled := true)])
    case Events(i, n) =>
      var k := s.cores[i];
      s.(cores := s.cores[i := k.(counter := k.counter + n, gen := k.gen + n)])
    case GpuAdd(c, n) =>
      s.(usage := s.usage[c := Wrap32(s.usage[c] + n)], gpuCharged := s.gpuCharged[c := s.gpuCharged[c] + n])
    case GpuCheck(c, cpu) =>
      if s.usage[c] > cfg.budget[c] then s.(cores := ThrottleCluster(cfg, s.cores, c, cpu)) else s
    case Advance(ns) =>
      s.(now := s.now + ns)
  }

  /** A run: states and the actions between them, from the initial state. */
  datatype Run = Run(states: seq<State>, actions: seq<Action>)
  {
    ghost predicate Valid(cfg: Config)
      requires cfg.Valid()
    {
      && |states| == |actions| + 1
      && states[0] == Init(cfg)
      && (forall k :: 0 <= k < |states| ==> states[k].Shape(cfg))
      && forall k :: 0 <= k < |actions| ==> Step(cfg, k)
    }

    ghost predicate Step(cfg: Config, k: nat)
      requires cfg.Valid() && k < |actions| && k + 1 < |states|
      requires states[k].Shape(cfg)
    {
      Enabled(cfg, states[k], actions[k]) && states[k + 1] == Apply(cfg, states[k], actions[k])
    }
  }

  // ---------- sums over the cores of a cluster ----------

  function Total(cfg: Config, cores: seq<Core>, c: nat, f: Core -> int): int
    requires |cores| <= |cfg.clusterOf|
  {
    if |cores| == 0 then 0
    else
      var n := |cores| - 1;
      Total(cfg, cores[..n], c, f) + if cfg.clusterOf[n] == c then f(cores[n]) else 0
  }

  /** Number of cores of a cluster. */
  function Size(cfg: Config, c: nat, n: nat): (r: nat)
    requires n <= |cfg.clusterOf|
    ensures r <= n
  {
    if n == 0 then 0 else Size(cfg, c, n - 1) + if cfg.clusterOf[n - 1] == c then 1 else 0
  }

  lemma {:induction false} TotalUpdate(cfg: Config, cores: seq<Core>, c: nat, f: Core -> int, i: nat, k: Core)
    requires |cores| <= |cfg.clusterOf| && i < |cores|
    ensures Total(cfg, cores[i := k], c, f)
         == Total(cfg, cores, c, f) + if cfg.clusterOf[i] == c then f(k) - f(cores[i]) else 0
  {
    var n := |cores| - 1;
    if i == n {
      assert cores[i := k][..n] == cores[..n];
    } else {
      assert cores[i := k][..n] == cores[..n][i := k];
      TotalUpdate(cfg, cores[..n], c, f, i, k);
    }
  }

  lemma {:induction false} TotalSame(cfg: Config, a: seq<Core>, b: seq<Core>, c: nat, f: Core -> int)
    requires |a| == |b| <= |cfg.clusterOf|
    requires forall j :: 0 <= j < |a| && cfg.In(j, c) ==> f(a[j]) == f(b[j])
    ensures Total(cfg, a, c, f) == Total(cfg, b, c, f)
  {
    if |a| > 0 {
      var n := |a| - 1;
      assert cfg.In(n, c) <==> cfg.clusterOf[n] == c;
      TotalSame(cfg, a[..n], b[..n], c, f);
    }
  }

  lemma {:induction false} TotalBounds(cfg: Config, cores: seq<Core>, c: nat, f: Core -> int, hi: int)
    requires |cores| <= |cfg.clusterOf|
    requires forall j :: 0 <= j < |cores| && cfg.In(j, c) ==> 0 <= f(cores[j]) <= hi
    ensures 0 <= Total(cfg, cores, c, f) <= Size(cfg, c, |cores|) * hi
  {
    if |cores| > 0 {
      var n := |cores| - 1;
      var m, l := Size(cfg, c, n), cores[n];
      TotalBounds(cfg, cores[..n], c, f, hi);
      if cfg.clusterOf[n] == c {
        assert cfg.In(n, c);
        assert 0 <= f(l) <= hi;
        assert (m + 1) * hi == m * hi + hi;
      }
    }
  }
}
