/** Punctuality cannot be dropped: a core that reaches its deadline can skip a regulation tick. */
module Witnesses {
  import opened MachineInts
  import opened Regulator
  import opened Punctuality
  import opened Lockstep
  import Kernel
  import Periods
  import TickCounter

  ghost predicate Reached(cfg: Config, r: Run, s: State)
    requires cfg.Valid()
  {
    r.Valid(cfg) && r.states[|r.actions|] == s
  }

  lemma Extend(cfg: Config, r: Run, s: State, a: Action) returns (q: Run, t: State)
    requires cfg.Valid() && Reached(cfg, r, s) && s.Shape(cfg) && Enabled(cfg, s, a)
    ensures t == Apply(cfg, s, a) && t.Shape(cfg) && Reached(cfg, q, t)
    ensures q.states == r.states + [t] && q.actions == r.actions + [a]
  {
    t := Apply(cfg, s, a);
    q := Run(r.states + [t], r.actions + [a]);
    forall k | 0 <= k < |q.actions|
      ensures q.Step(cfg, k)
    {
      if k < |r.actions| { assert r.Step(cfg, k); }
    }
  }

  /** An undisturbed callback of one core, as three or four steps of the machine. */
  lemma Call(cfg: Config, r: Run, s: State, i: nat) returns (q: Run, t: State)
    requires cfg.Valid() && Reached(cfg, r, s) && s.Shape(cfg) && Enabled(cfg, s, Swap(i))
    ensures t == Kernel.Callback(cfg, s, i) && t.Shape(cfg) && Reached(cfg, q, t)
  {
    q, t := Extend(cfg, r, s, Swap(i));
    q, t := Extend(cfg, q, t, Fetch(i));
    if IsRegulation(cfg, t.cores[i].local) {
      q, t := Extend(cfg, q, t, Regulate(i));
    } else {
      q, t := Extend(cfg, q, t, Charge(i));
      q, t := Extend(cfg, q, t, Check(i));
    }
  }

  // ---------- skipping the regulation tick ----------

  /** Run `q` continues run `r`. */
  predicate Continues(r: Run, q: Run) {
    r.states <= q.states && r.actions <= q.actions
  }

  /** In the part of `q` behind `r`, core `i` does not execute a regulation body. */
  ghost predicate Omits(r: Run, q: Run, i: nat) {
    forall k :: |r.actions| <= k < |q.actions| ==> q.actions[k] != Regulate(i)
  }

  /** Core `i` and some other core have finished tick `L`, the next tick is a regulation tick, and
      the deadline of core `i` has not passed. */
  ghost predicate BeforeRegulation(cfg: Config, s: State, i: nat, j: nat, L: nat)
    requires cfg.Valid()
  {
    && s.Shape(cfg) && i < |s.cores| && j < |s.cores| && i != j && s.count == L
    && s.cores[i].pc.Idle? && s.cores[j].pc.Idle? && s.cores[i].local == s.cores[j].local == L
    && IsRegulation(cfg, L + 1) && s.now <= Deadline(cfg, s.cores[i])
  }

  /** The other core goes through tick L + 1 and starts tick L + 2; then core `i` fires. */
  lemma LateCoreSkips(cfg: Config, r: Run, s: State, i: nat, j: nat, L: nat) returns (q: Run, t: State)
    requires cfg.Valid() && cfg.interval >= 2 && Reached(cfg, r, s) && BeforeRegulation(cfg, s, i, j, L)
    ensures Continues(r, q) && Omits(r, q, i) && Regulate(j) in q.actions[|r.actions|..]
    ensures Reached(cfg, q, t) && t.Shape(cfg) && t.now == Deadline(cfg, s.cores[i])
    ensures t.cores[i].pc.Idle? && t.cores[i].local == L + 2
    ensures s.cores[i].throttled ==> t.cores[i].throttled && !t.cores[j].throttled
    ensures cfg.leader[cfg.clusterOf[i]] == j && cfg.clusterOf[j] == cfg.clusterOf[i] ==>
      t.usage[cfg.clusterOf[i]] == Wrap32(s.cores[i].Residue())
  {
    var p, u := OtherRegulates(cfg, r, s, i, j, L);
    q, t := JumpOver(cfg, p, u, s, i, j, L);
    var n := |r.actions|;
    assert q.actions == r.actions + [Advance(Deadline(cfg, s.cores[i]) - s.now), Swap(j), Fetch(j), Regulate(j),
                                     Swap(j), Swap(i), Fetch(i), Charge(i), Check(i)];
    assert q.actions[n..][3] == Regulate(j);
  }

  ghost predicate OtherRegulated(cfg: Config, s: State, u: State, i: nat, j: nat, L: nat)
    requires cfg.Valid() && BeforeRegulation(cfg, s, i, j, L)
  {
    && u.Shape(cfg) && u.count == L + 1 && u.now == Deadline(cfg, s.cores[i]) && u.cores[i] == s.cores[i]
    && u.cores[j].pc.Idle? && u.cores[j].local == L + 1 && !u.cores[j].throttled
    && u.cores[j].due <= u.now
    && (cfg.leader[cfg.clusterOf[j]] == j ==> u.usage[cfg.clusterOf[j]] == 0)
  }

  lemma OtherRegulates(cfg: Config, r: Run, s: State, i: nat, j: nat, L: nat) returns (q: Run, u: State)
    requires cfg.Valid() && cfg.interval >= 2 && Reached(cfg, r, s) && BeforeRegulation(cfg, s, i, j, L)
    ensures Reached(cfg, q, u) && OtherRegulated(cfg, s, u, i, j, L) && r.states <= q.states
    ensures q.actions == r.actions + [Advance(Deadline(cfg, s.cores[i]) - s.now), Swap(j), Fetch(j), Regulate(j)]
  {
    Periods.ArmedInEveryRun(cfg, r, |r.actions|, cfg.clusterOf[i]);
    MulLe(L, L + 1, cfg.periodNs);
    q, u := Extend(cfg, r, s, Advance(Deadline(cfg, s.cores[i]) - s.now));
    q, u := Extend(cfg, q, u, Swap(j));
    q, u := Extend(cfg, q, u, Fetch(j));
    q, u := Extend(cfg, q, u, Regulate(j));
  }

  lemma JumpOver(cfg: Config, r: Run, u: State, s: State, i: nat, j: nat, L: nat) returns (q: Run, t: State)
    requires cfg.Valid() && cfg.interval >= 2 && Reached(cfg, r, u)
    requires BeforeRegulation(cfg, s, i, j, L) && OtherRegulated(cfg, s, u, i, j, L)
    ensures r.states <= q.states && q.actions == r.actions + [Swap(j), Swap(i), Fetch(i), Charge(i), Check(i)]
    ensures Reached(cfg, q, t) && t.Shape(cfg) && t.now == u.now
    ensures t.cores[i].pc.Idle? && t.cores[i].local == L + 2
    ensures s.cores[i].throttled ==> t.cores[i].throttled && !t.cores[j].throttled
    ensures u.usage[cfg.clusterOf[i]] == 0 ==> t.usage[cfg.clusterOf[i]] == Wrap32(s.cores[i].Residue())
  {
    Periods.ArmedInEveryRun(cfg, r, |r.actions|, cfg.clusterOf[i]);
    MulLe(L, L + 1, cfg.periodNs);
    NotTwoRegulations(cfg, L + 1);
    q, t := Extend(cfg, r, u, Swap(j));
    q, t := Extend(cfg, q, t, Swap(i));
    q, t := Extend(cfg, q, t, Fetch(i));
    q, t := Extend(cfg, q, t, Charge(i));
    q, t := Extend(cfg, q, t, Check(i));
  }

  /** In every run, a core that fetches a later tick than the next one does so at its deadline or
      after it. */
  lemma JumpsAreLate(cfg: Config, r: Run, k: nat, i: nat)
    requires cfg.Valid() && r.Valid(cfg) && k < |r.actions| && r.actions[k] == Fetch(i) && r.Step(cfg, k)
    requires r.states[k + 1].cores[i].local > r.states[k].cores[i].local + 1
    ensures r.states[k].now >= Deadline(cfg, r.states[k].cores[i])
  {
    var s := r.states[k];
    Periods.ArmedInEveryRun(cfg, r, k, cfg.clusterOf[i]);
    MulLe(s.cores[i].local + 1, s.count - 1, cfg.periodNs);
  }

  /** As long as time is before the deadline, the core is about to enter tick L + 1 or in it. */
  ghost predicate NotSkipped(cfg: Config, s: State, i: nat, L: nat, deadline: int)
    requires s.Shape(cfg) && i < |s.cores|
  {
    || s.now >= deadline
    || (s.cores[i].local == L && (s.cores[i].pc.Idle? || s.cores[i].pc.Swapped?))
    || (s.cores[i].local == L + 1 && s.cores[i].pc.Fetched?)
  }

  lemma {:induction false} OnlyLateCoresSkip(cfg: Config, r: Run, s: State, q: Run, n: nat, i: nat, j: nat, L: nat)
    requires cfg.Valid() && Reached(cfg, r, s) && BeforeRegulation(cfg, s, i, j, L)
    requires q.Valid(cfg) && Continues(r, q) && Omits(r, q, i) && |r.actions| <= n <= |q.actions|
    ensures NotSkipped(cfg, q.states[n], i, L, Deadline(cfg, s.cores[i]))
    decreases n
  {
    if n == |r.actions| {
      assert q.states[n] == r.states[n];
    } else {
      OnlyLateCoresSkip(cfg, r, s, q, n - 1, i, j, L);
      assert q.Step(cfg, n - 1) && q.actions[n - 1] != Regulate(i);
      var u := q.states[n - 1];
      if q.actions[n - 1] == Fetch(i) && u.cores[i].local == L && q.states[n].cores[i].local != L + 1 {
        TickCounter.TicksInEveryRun(cfg, q, n - 1);
        JumpsAreLate(cfg, q, n - 1, i);
      }
    }
  }

  /** The continuation `q` carries core `i` past tick L + 1 without its regulation body, and time
      no further than `latest`. */
  ghost predicate Skips(cfg: Config, r: Run, q: Run, i: nat, L: nat, latest: int)
    requires cfg.Valid()
  {
    && q.Valid(cfg) && Continues(r, q) && Omits(r, q, i)
    && var t := q.states[|q.actions|];
       t.Shape(cfg) && i < |t.cores| && t.cores[i].local > L + 1 && t.now <= latest
  }

  /** From every such state of every run: some continuation makes core `i` skip the regulation tick by
      time `latest` if and only if `latest` is not before the core's deadline. */
  lemma SkipsIffDeadline(cfg: Config, r: Run, s: State, i: nat, j: nat, L: nat, latest: int)
    requires cfg.Valid() && cfg.interval >= 2 && Reached(cfg, r, s) && BeforeRegulation(cfg, s, i, j, L)
    ensures (exists q: Run :: Skips(cfg, r, q, i, L, latest)) <==> latest >= Deadline(cfg, s.cores[i])
  {
    if latest >= Deadline(cfg, s.cores[i]) {
      var q, t := LateCoreSkips(cfg, r, s, i, j, L);
      assert Skips(cfg, r, q, i, L, latest);
    }
    if q: Run :| Skips(cfg, r, q, i, L, latest) {
      OnlyLateCoresSkip(cfg, r, s, q, |q.actions|, i, j, L);
    }
  }

  // ---------- such a state exists ----------

  /** Two cores of one cluster, core 0 leads, no budget, M = 2. */
  const TWO_CORES := Config([0, 0], [0], [0], 2, 1, 0)

  function Pair(count: nat, k: Core, l: Core, usage: int, regulations: nat, now: int): State {
    State(count, [k, l], [usage], [regulations], now, [0], [0])
  }

  const AT_START := Core(Idle, 0, 0, false, false, 0, 0, 0, 0)
  const OPENED := Core(Idle, 1, 1, false, false, 0, 0, 0, 0)
  const OVER := Core(Idle, 2, 2, true, false, 1, 1, 1, 0)
  const STOPPED := Core(Idle, 2, 2, true, false, 0, 0, 0, 0)

  /** Tick 1, by both cores. */
  lemma OneOpen() returns (r: Run)
    ensures Reached(TWO_CORES, r, Pair(1, OPENED, AT_START, 0, 1, 0))
  {
    var s := Pair(0, AT_START, AT_START, 0, 0, 0);
    r := Run([s], []);
    assert s == Init(TWO_CORES);
    r, s := Call(TWO_CORES, r, s, 0);
  }

  lemma BothOpen() returns (r: Run)
    ensures Reached(TWO_CORES, r, Pair(1, OPENED, OPENED, 0, 1, 0))
  {
    r := OneOpen();
    var s := Pair(1, OPENED, AT_START, 0, 1, 0);
    r, s := Call(TWO_CORES, r, s, 1);
  }

  /** One event of core 0; tick 2 is due. */
  lemma OneEvent() returns (r: Run)
    ensures Reached(TWO_CORES, r, Pair(1, OPENED.(counter := 1, gen := 1), OPENED, 0, 1, 1))
  {
    r := BothOpen();
    var s := Pair(1, OPENED, OPENED, 0, 1, 0);
    r, s := Extend(TWO_CORES, r, s, Events(0, 1));
    r, s := Extend(TWO_CORES, r, s, Advance(1));
  }

  lemma OverBudget() returns (r: Run)
    ensures Reached(TWO_CORES, r, Pair(2, OVER, OPENED.(ipi := true), 1, 1, 1))
  {
    r := OneEvent();
    var s := Pair(1, OPENED.(counter := 1, gen := 1), OPENED, 0, 1, 1);
    r, s := Call(TWO_CORES, r, s, 0);
  }

  /** Tick 2: core 0 is over budget and throttles both. */
  lemma BothThrottled() returns (r: Run, s: State)
    ensures Reached(TWO_CORES, r, s) && BeforeRegulation(TWO_CORES, s, 1, 0, 2)
    ensures s == Pair(2, OVER, STOPPED, 1, 1, 1)
  {
    r := OverBudget();
    s := Pair(2, OVER, OPENED.(ipi := true), 1, 1, 1);
    r, s := Extend(TWO_CORES, r, s, Deliver(1));
    r, s := Call(TWO_CORES, r, s, 1);
  }

  /** Such a continuation exists: after tick 2 (run `p`) core 1 never executes a regulation body. It
      stays throttled although tick 3 wiped the usage and opened its cluster's other core, and although
      every interrupt was delivered before the next callback. */
  lemma LateCoreMissesRegulation() returns (p: Run, r: Run, s: State)
    ensures Reached(TWO_CORES, p, Pair(2, OVER, STOPPED, 1, 1, 1)) && Continues(p, r) && Omits(p, r, 1)
    ensures Regulate(0) in r.actions[|p.actions|..]
    ensures Reached(TWO_CORES, r, s) && s.Shape(TWO_CORES) && s.usage[0] == 0
    ensures !s.cores[0].throttled && s.cores[1].throttled && s.cores[1].local == 4
  {
    var u;
    p, u := BothThrottled();
    r, s := LateCoreSkips(TWO_CORES, p, u, 1, 0, 2);
  }
}
