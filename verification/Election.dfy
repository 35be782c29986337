/**
 Leader election: each core that starts its timer records its start time and scans the start times
 of its cluster. Recordings and scans of different cores interleave; a scan is one step.
 */
module Election {

  const KTIME_MAX: int := 0x7fff_ffff_ffff_ffff

  ghost predicate IsMinimum(times: seq<int>, m: int) {
    m in times && forall i :: 0 <= i < |times| ==> m <= times[i]
  }

  datatype Event = Record(cpu: nat, now: int) | Scan(cpu: nat)

  ghost predicate Recorded(events: seq<Event>, cpu: nat) {
    exists k :: 0 <= k < |events| && events[k].Record? && events[k].cpu == cpu
  }

  /** A recording is by a core of the cluster that has not recorded yet. */
  ghost predicate Possible(e: Event, first: nat, s: seq<int>) {
    e.Record? ==> first <= e.cpu < first + |s| && s[e.cpu - first] == KTIME_MAX && e.now < KTIME_MAX
  }

  /** Every recording is by a core of the cluster that has not recorded before. */
  ghost predicate Recordable(events: seq<Event>, first: nat, start: seq<int>) {
    && (forall k :: 0 <= k < |events| ==> Possible(events[k], first, start))
    && (forall j, k :: 0 <= j < k < |events| && events[j].Record? && events[k].Record? ==>
          events[j].cpu != events[k].cpu)
  }

  /** Every core that records scans afterwards. */
  ghost predicate EachScans(events: seq<Event>) {
    forall k :: 0 <= k < |events| && events[k].Record? ==>
      exists l :: k < l < |events| && events[l] == Scan(events[k].cpu)
  }

  ghost predicate Within(e: Event, first: nat, size: nat) {
    e.Record? ==> first <= e.cpu < first + size
  }

  function After(s: seq<int>, first: nat, e: Event): (t: seq<int>)
    requires Within(e, first, |s|)
    ensures |t| == |s|
  {
    if e.Record? then s[e.cpu - first := e.now] else s
  }

  /** The start times after the events. */
  function Starts(start: seq<int>, first: nat, events: seq<Event>): (r: seq<int>)
    requires forall k :: 0 <= k < |events| ==> Within(events[k], first, |start|)
    ensures |r| == |start|
  {
    if events == [] then start
    else
      var n := |events| - 1;
      After(Starts(start, first, events[..n]), first, events[n])
  }

  /** Each recording stays, and a core that does not record keeps its value. */
  lemma {:induction false} StartsValues(start: seq<int>, first: nat, events: seq<Event>, cpu: nat)
    requires Recordable(events, first, start) && first <= cpu < first + |start|
    ensures forall k :: 0 <= k < |events| && events[k].Record? && events[k].cpu == cpu ==>
      Starts(start, first, events)[cpu - first] == events[k].now
    ensures !Recorded(events, cpu) ==> Starts(start, first, events)[cpu - first] == start[cpu - first]
  {
    if events != [] {
      var n := |events| - 1;
      StartsValues(start, first, events[..n], cpu);
      forall k | 0 <= k < |events| && events[k].Record? && events[k].cpu == cpu
        ensures Starts(start, first, events)[cpu - first] == events[k].now
      {
        if k < n { assert events[..n][k] == events[k]; }
      }
      if Recorded(events[..n], cpu) {
        var k :| 0 <= k < n && events[..n][k].Record? && events[..n][k].cpu == cpu;
        assert events[k] == events[..n][k];
      }
    }
  }

  /** One more event: a recording is the first of its core. */
  lemma NextEvent(start: seq<int>, first: nat, events: seq<Event>, n: nat)
    requires Recordable(events, first, start) && n < |events|
    ensures Recordable(events[..n], first, start) && Recordable(events[..n + 1], first, start)
    ensures Possible(events[n], first, Starts(start, first, events[..n]))
    ensures Starts(start, first, events[..n + 1]) == After(Starts(start, first, events[..n]), first, events[n])
  {
    assert events[..n + 1][..n] == events[..n];
    if events[n].Record? {
      assert !Recorded(events[..n], events[n].cpu);
      StartsValues(start, first, events[..n], events[n].cpu);
    }
  }

  /** The part of `g_hrtimer_start` that belongs to one cluster, and the cluster's election state. */
  class Cluster {
    const first: nat  // number of the cluster's first core
    var start: seq<int>
    var leaderStart: int
    var leaderCore: int

    /** What holds at any time: a leader time is attained by the leader, but other cores may have
        recorded an earlier one that nobody has scanned yet. */
    ghost predicate Valid()
      reads this
    {
      && |start| > 0
      && (forall i :: 0 <= i < |start| ==> start[i] <= KTIME_MAX)
      && leaderStart <= KTIME_MAX
      && (leaderStart == KTIME_MAX ==> leaderCore == -1)
      && (leaderStart < KTIME_MAX ==>
            first <= leaderCore < first + |start| && start[leaderCore - first] == leaderStart)
    }

    /** The leader time is the minimum of the recorded times, and the leader attains it. */
    ghost predicate Elected()
      reads this
    {
      Valid() && IsMinimum(start, leaderStart)
    }

    constructor (first: nat, size: nat)
      requires size > 0
      ensures Elected() && this.first == first && start == seq(size, i => KTIME_MAX) && leaderCore == -1
    {
      this.first := first;
      start := seq(size, i => KTIME_MAX);
      leaderStart := KTIME_MAX;
      leaderCore := -1;
      new;
      assert start[0] == KTIME_MAX;
    }

    /** The core starts its timer at time `now`. */
    method Record(cpu: nat, now: int)
      requires Valid() && first <= cpu < first + |start|
      requires start[cpu - first] == KTIME_MAX && now < KTIME_MAX
      modifies this`start
      ensures Valid() && start == old(start)[cpu - first := now]
    {
      start := start[cpu - first := now];
    }

    /** A core's scan of the cluster's start times: it elects the first core among those that are
        earliest, whether or not that core has scanned itself, unless the leader is as early. */
    method Scan()
      requires Valid()
      modifies this`leaderStart, this`leaderCore
      ensures Valid() && Elected()
      ensures leaderStart == old(leaderStart) ==> leaderCore == old(leaderCore)
      ensures leaderStart != old(leaderStart) ==>
        forall i :: 0 <= i < |start| && start[i] == leaderStart ==> leaderCore <= first + i
    {
      var c := 0;
      while c < |start|
        invariant 0 <= c <= |start| && Valid()
        invariant forall i :: 0 <= i < c ==> leaderStart <= start[i]
        invariant leaderStart <= old(leaderStart)
        invariant leaderStart == old(leaderStart) ==> leaderCore == old(leaderCore)
        invariant leaderStart != old(leaderStart) ==> leaderCore < first + c
        invariant leaderStart != old(leaderStart) ==>
          forall i :: 0 <= i < c && start[i] == leaderStart ==> leaderCore <= first + i
      {
        if start[c] < leaderStart {
          leaderStart := start[c];
          leaderCore := first + c;
        }
        c := c + 1;
      }
      assert leaderStart < KTIME_MAX ==> start[leaderCore - first] == leaderStart;
      assert leaderStart == KTIME_MAX ==> start[0] == KTIME_MAX;
    }

    /** `__start_counter` on core `cpu` at time `now`, with nothing in between. */
    method Start(cpu: nat, now: int)
      requires Elected() && first <= cpu < first + |start|
      requires start[cpu - first] == KTIME_MAX && now < KTIME_MAX
      modifies this
      ensures Elected()
      ensures start == old(start)[cpu - first := now]
      ensures leaderStart == if now < old(leaderStart) then now else old(leaderStart)
      ensures leaderCore == if now < old(leaderStart) then cpu else old(leaderCore)
    {
      assert Valid();
      Record(cpu, now);
      Scan();
      assert start[cpu - first] == now;
    }

    method Perform(e: Event)
      requires Valid() && Possible(e, first, start)
      modifies this
      ensures Valid() && start == After(old(start), first, e)
      ensures e.Scan? ==> Elected()
    {
      match e
      case Record(cpu, now) => Record(cpu, now);
      case Scan(_) => Scan();
    }

    /** Recordings and scans of any cores, in any order in which each core records once and scans
        later: afterwards the leader time is the minimum of all recorded times and is attained. */
    method Interleaved(events: seq<Event>)
      requires Elected() && Recordable(events, first, start)
      modifies this
      ensures Valid() && start == Starts(old(start), first, events)
      ensures EachScans(events) ==> Elected()
    {
      var n := 0;
      while n < |events|
        invariant 0 <= n <= |events| && Valid() && Recordable(events[..n], first, old(start))
        invariant start == Starts(old(start), first, events[..n])
        invariant n == 0 || events[n - 1].Scan? ==> Elected()
      {
        NextEvent(old(start), first, events, n);
        Perform(events[n]);
        n := n + 1;
      }
      assert events[..n] == events;
      assert EachScans(events) && events != [] ==> events[|events| - 1].Scan?;
    }

    /** Any subset of the cluster's cores one after another, in any order: the leader time is the
        minimum of all recorded times and the leader attains it after each of them. */
    method StartAll(events: seq<Event>)
      requires Elected() && Recordable(events, first, start) && forall k :: 0 <= k < |events| ==> events[k].Record?
      modifies this
      ensures Elected() && start == Starts(old(start), first, events)
    {
      var n := 0;
      while n < |events|
        invariant 0 <= n <= |events| && Elected() && Recordable(events[..n], first, old(start))
        invariant start == Starts(old(start), first, events[..n])
      {
        NextEvent(old(start), first, events, n);
        Start(events[n].cpu, events[n].now);
        n := n + 1;
      }
      assert events[..n] == events;
    }
  }

  /** The outcome does not depend on the order in which the cores start: a minimum is unique, and
      among distinct times so is the core that attains it. */
  lemma OrderIrrelevant(times: seq<int>, m: int, m': int, i: nat, j: nat)
    requires IsMinimum(times, m) && IsMinimum(times, m')
    requires i < |times| && j < |times| && times[i] == m && times[j] == m'
    requires forall a, b :: 0 <= a < b < |times| ==> times[a] != times[b] || times[a] == KTIME_MAX
    requires m < KTIME_MAX
    ensures m == m' && i == j
  {
    assert m <= times[j] && m' <= times[i];
  }
}
