/**
 The one-slot mailbox between the profiler's write() and the receiver thread of a cluster. A step is
 one access to a mailbox word or to the ready flag, by either side.
 */
module Mailbox {
  import opened MachineInts
  import opened Conversion
  import opened Bits
  import opened LittleEndian

  const CLEANED: int := -1

  /** In write(): the two words are copied in any order, then the slot is published. */
  datatype Writer = Quiet | Storing(r: nat, w: nat, rdDone: bool, wrDone: bool)

  datatype Receiver = Waiting | Awake | GotRd(rd: int) | GotBoth(rd: int, wr: int) | Added | CleanedRd | CleanedBoth

  /** Ledger of one word. `log` are the values ever stored; the store of `log[n - 1]` has number n.
      `tag` is the number of the store whose value the word holds, 0 when it has been cleaned or was
      never stored; `held` is the tag that the receiver last read; `used` are the tags it charged. */
  datatype Ledger = Ledger(log: seq<nat>, tag: nat, held: nat, used: seq<nat>)
  {
    function Stored(x: nat): Ledger {
      Ledger(log + [x], |log| + 1, held, used)
    }

    function Read(): Ledger {
      this.(held := tag)
    }

    function Charged(): Ledger {
      this.(used := used + [held])
    }

    function Cleaned(): Ledger {
      this.(tag := 0)
    }

    /** The value with this tag; a cleaned word reads as -1. */
    function ValueOf(tag: nat): int {
      if 0 < tag <= |log| then log[tag - 1] else CLEANED
    }
  }

  /** `seenRd`, `seenWr` say whether a word was ever stored: the memory starts uninitialised.
      `samples`, `charges`, `storedRd`, `storedWr`, `consumedRd`, `consumedWr` and the two word
      ledgers are ghost. */
  datatype State = State(
    rd: int, wr: int, ready: bool, writer: Writer, receiver: Receiver,
    seenRd: bool, seenWr: bool,
    samples: seq<(nat, nat)>, charges: seq<int>,
    storedRd: nat, storedWr: nat, consumedRd: int, consumedWr: int, rdLedger: Ledger, wrLedger: Ledger)

  datatype Action = Open(r: nat, w: nat) | StoreRd | StoreWr | Publish
                  | Wake | ReadRd | ReadWr | Add | CleanRd | CleanWr | Unready

  /** `(rd * 16 + wr * 16)` in int arithmetic, converted to events. */
  function ChargeOf(rd: int, wr: int): int {
    BytesToEvents(Wrap32(Wrap32(rd * 16) + Wrap32(wr * 16)))
  }

  ghost predicate Initial(s: State) {
    && !s.ready && s.writer.Quiet? && s.receiver.Waiting? && !s.seenRd && !s.seenWr
    && s.samples == [] && s.charges == []
    && s.storedRd == s.storedWr == 0 && s.consumedRd == s.consumedWr == 0
    && s.rdLedger == s.wrLedger == Ledger([], 0, 0, [])
  }

  predicate Enabled(s: State, a: Action) {
    match a
    case Open(r, w) => s.writer.Quiet? && r < TWO_31 && w < TWO_31
    case StoreRd => s.writer.Storing? && !s.writer.rdDone
    case StoreWr => s.writer.Storing? && !s.writer.wrDone
    case Publish => s.writer.Storing? && s.writer.rdDone && s.writer.wrDone
    case Wake => s.receiver.Waiting? && s.ready
    case ReadRd => s.receiver.Awake?
    case ReadWr => s.receiver.GotRd?
    case Add => s.receiver.GotBoth?
    case CleanRd => s.receiver.Added?
    case CleanWr => s.receiver.CleanedRd?
    case Unready => s.receiver.CleanedBoth?
  }

  function Apply(s: State, a: Action): State
    requires Enabled(s, a)
  {
    match a
    case Open(r, w) => s.(writer := Storing(r, w, false, false), samples := s.samples + [(r, w)])
    case StoreRd =>
      s.(rd := s.writer.r, writer := s.writer.(rdDone := true), seenRd := true, storedRd := s.storedRd + s.writer.r,
         rdLedger := s.rdLedger.Stored(s.writer.r))
    case StoreWr =>
      s.(wr := s.writer.w, writer := s.writer.(wrDone := true), seenWr := true, storedWr := s.storedWr + s.writer.w,
         wrLedger := s.wrLedger.Stored(s.writer.w))
    case Publish => s.(ready := true, writer := Quiet)
    case Wake => s.(receiver := Awake)
    case ReadRd => s.(receiver := GotRd(s.rd), rdLedger := s.rdLedger.Read())
    case ReadWr => s.(receiver := GotBoth(s.receiver.rd, s.wr), wrLedger := s.wrLedger.Read())
    case Add =>
      var rd, wr := s.receiver.rd, s.receiver.wr;
      s.(receiver := Added, charges := s.charges + [ChargeOf(rd, wr)],
         consumedRd := s.consumedRd + rd, consumedWr := s.consumedWr + wr,
         rdLedger := s.rdLedger.Charged(), wrLedger := s.wrLedger.Charged())
    case CleanRd => s.(rd := CLEANED, receiver := CleanedRd, rdLedger := s.rdLedger.Cleaned())
    case CleanWr => s.(wr := CLEANED, receiver := CleanedBoth, wrLedger := s.wrLedger.Cleaned())
    case Unready => s.(ready := false, receiver := Waiting)
  }

  datatype Run = Run(states: seq<State>, actions: seq<Action>)
  {
    ghost predicate Valid() {
      && |states| == |actions| + 1
      && Initial(states[0])
      && forall k :: 0 <= k < |actions| ==> Step(k)
    }

    ghost predicate Step(k: nat)
      requires k < |actions| && k + 1 < |states|
    {
      Enabled(states[k], actions[k]) && states[k + 1] == Apply(states[k], actions[k])
    }
  }

  function Sum(xs: seq<int>): int {
    if xs == [] then 0 else Sum(xs[..|xs| - 1]) + xs[|xs| - 1]
  }

  // ---------- no beat is charged twice ----------

  /** Whatever the two words hold, a charge never exceeds a quarter of their sum: overflow only
      lowers it. Without overflow it is the floor of that quarter. */
  lemma ChargeAtMostQuarter(rd: int, wr: int)
    requires CLEANED <= rd && CLEANED <= wr
    ensures 4 * ChargeOf(rd, wr) <= rd + wr
    ensures rd + wr < 0x800_0000 ==> ChargeOf(rd, wr) == (rd + wr) / 4
  {
    var x := rd * 16 + wr * 16;
    WrapSum(rd * 16, wr * 16);
    WrapBelow(x);
    BytesToEventsIsFloor(Wrap32(x));
  }

  /** A sum as the receiver's arithmetic sees it: a two's-complement number of 28 bits. */
  function Signed28(x: int): int {
    (x + 0x800_0000) % 0x1000_0000 - 0x800_0000
  }

  lemma WrapTimes16(x: int)
    ensures Wrap32(16 * x) == 16 * Signed28(x)
  {
    var q, r := (x + 0x800_0000) / 0x1000_0000, (x + 0x800_0000) % 0x1000_0000;
    DivUnique(16 * x + TWO_31, TWO_32, q, 16 * r);
  }

  /** The charge for any two words, overflow included: a quarter of their sum as a 28-bit number, rounded
      down. It is a quarter of the sum itself if and only if the sum is such a number. */
  lemma ChargeExact(rd: int, wr: int)
    ensures ChargeOf(rd, wr) == Signed28(rd + wr) / 4
    ensures ChargeOf(rd, wr) == (rd + wr) / 4 <==> -0x800_0000 <= rd + wr < 0x800_0000
  {
    var x := rd + wr;
    WrapSum(rd * 16, wr * 16);
    WrapTimes16(x);
    BytesToEventsIsFloor(16 * Signed28(x));
  }

  /** What can happen next: a write opens when none is under way, its words are stored in any order, each
      once, and published when both are; the receiver wakes only to a published slot, and every later
      access of its turn follows the one before, whatever the writer does. */
  lemma NeverBlocked(s: State, a: Action)
    ensures a.Open? ==> (Enabled(s, a) <==> s.writer.Quiet? && a.r < TWO_31 && a.w < TWO_31)
    ensures s.writer.Storing? ==>
      && (Enabled(s, StoreRd) <==> !s.writer.rdDone) && (Enabled(s, StoreWr) <==> !s.writer.wrDone)
      && (Enabled(s, Publish) <==> s.writer.rdDone && s.writer.wrDone)
    ensures s.writer.Quiet? ==> !Enabled(s, StoreRd) && !Enabled(s, StoreWr) && !Enabled(s, Publish)
    ensures Enabled(s, Wake) <==> s.receiver.Waiting? && s.ready
    ensures !s.receiver.Waiting? ==> Enabled(s, NextAccess(s.receiver))
    ensures Enabled(s, a) ==>
      a.Open? || a.StoreRd? || a.StoreWr? || a.Publish? || a.Wake? || a == NextAccess(s.receiver)
  {
  }

  /** The stores that have been charged, in order: each at most once, none before an earlier one. */
  ghost predicate InOrder(used: seq<nat>) {
    forall a, b :: 0 <= a < b < |used| && used[a] > 0 && used[b] > 0 ==> used[a] < used[b]
  }

  ghost predicate Above(used: seq<nat>, tag: nat) {
    tag > 0 ==> forall a :: 0 <= a < |used| ==> used[a] < tag
  }

  ghost predicate Numbered(l: Ledger) {
    forall a :: 0 <= a < |l.used| ==> l.used[a] <= |l.log|
  }

  /** `reading` says that the receiver has read `value` from the word and not yet charged it, `spent`
      that it has charged the word and not yet cleaned it. */
  ghost predicate LedgerInv(l: Ledger, seen: bool, word: int, reading: bool, value: int, spent: bool) {
    && l.tag <= |l.log| && l.held <= |l.log| && Numbered(l)
    && InOrder(l.used)
    && (seen ==> word == l.ValueOf(l.tag))
    && (!seen ==> l.log == [])
    && (reading ==> Above(l.used, l.held) && value == l.ValueOf(l.held))
    && (!reading && !spent ==> Above(l.used, l.tag))
  }

  ghost predicate LedgersInv(s: State) {
    var c := s.receiver;
    && LedgerInv(s.rdLedger, s.seenRd, s.rd, c.GotRd? || c.GotBoth?,
                 if c.GotRd? || c.GotBoth? then c.rd else 0, c.Added?)
    && LedgerInv(s.wrLedger, s.seenWr, s.wr, c.GotBoth?,
                 if c.GotBoth? then c.wr else 0, c.Added? || c.CleanedRd?)
  }

  /** Every charge is that of one read-word store and one write-word store (or of a cleaned word). */
  ghost predicate Explained(charges: seq<int>, rd: Ledger, wr: Ledger) {
    && |charges| == |rd.used| == |wr.used|
    && forall k :: 0 <= k < |charges| ==> charges[k] == ChargeOf(rd.ValueOf(rd.used[k]), wr.ValueOf(wr.used[k]))
  }

  ghost predicate ChargesExplained(s: State) {
    Explained(s.charges, s.rdLedger, s.wrLedger)
  }

  lemma StoreKeeps(l: Ledger, seen: bool, word: int, reading: bool, value: int, spent: bool, x: nat)
    requires LedgerInv(l, seen, word, reading, value, spent)
    ensures LedgerInv(l.Stored(x), true, x, reading, value, spent)
  {
  }

  lemma ReadKeeps(l: Ledger, word: int, value: int)
    requires LedgerInv(l, true, word, false, value, false)
    ensures LedgerInv(l.Read(), true, word, true, word, false)
  {
  }

  lemma ChargeKeeps(l: Ledger, word: int, value: int)
    requires LedgerInv(l, true, word, true, value, false)
    ensures LedgerInv(l.Charged(), true, word, false, 0, true)
  {
  }

  lemma CleanKeeps(l: Ledger, word: int)
    requires LedgerInv(l, true, word, false, 0, true)
    ensures LedgerInv(l.Cleaned(), true, CLEANED, false, 0, false)
  {
  }

  lemma LedgersStep(s: State, a: Action)
    requires Inv(s) && LedgersInv(s) && Enabled(s, a)
    ensures LedgersInv(Apply(s, a))
  {
    var c := s.receiver;
    match a
    case StoreRd =>
      StoreKeeps(s.rdLedger, s.seenRd, s.rd, c.GotRd? || c.GotBoth?,
                 if c.GotRd? || c.GotBoth? then c.rd else 0, c.Added?, s.writer.r);
    case StoreWr =>
      StoreKeeps(s.wrLedger, s.seenWr, s.wr, c.GotBoth?,
                 if c.GotBoth? then c.wr else 0, c.Added? || c.CleanedRd?, s.writer.w);
    case ReadRd => ReadKeeps(s.rdLedger, s.rd, 0);
    case ReadWr => ReadKeeps(s.wrLedger, s.wr, 0);
    case Add =>
      ChargeKeeps(s.rdLedger, s.rd, c.rd);
      ChargeKeeps(s.wrLedger, s.wr, c.wr);
    case CleanRd => CleanKeeps(s.rdLedger, s.rd);
    case CleanWr => CleanKeeps(s.wrLedger, s.wr);
    case _ =>
  }

  /** A later store does not change what earlier charges were for. */
  lemma StillExplained(charges: seq<int>, rd: Ledger, wr: Ledger, rd': Ledger, wr': Ledger)
    requires Explained(charges, rd, wr) && Numbered(rd) && Numbered(wr)
    requires rd'.used == rd.used && wr'.used == wr.used && rd.log <= rd'.log && wr.log <= wr'.log
    ensures Explained(charges, rd', wr')
  {
    forall k | 0 <= k < |charges|
      ensures rd'.ValueOf(rd'.used[k]) == rd.ValueOf(rd.used[k]) && wr'.ValueOf(wr'.used[k]) == wr.ValueOf(wr.used[k])
    {
    }
  }

  lemma NextExplained(charges: seq<int>, rd: Ledger, wr: Ledger, charge: int)
    requires Explained(charges, rd, wr) && charge == ChargeOf(rd.ValueOf(rd.held), wr.ValueOf(wr.held))
    ensures Explained(charges + [charge], rd.Charged(), wr.Charged())
  {
  }

  lemma ExplainedStep(s: State, a: Action)
    requires LedgersInv(s) && ChargesExplained(s) && Enabled(s, a)
    ensures ChargesExplained(Apply(s, a))
  {
    var t := Apply(s, a);
    if a.Add? {
      NextExplained(s.charges, s.rdLedger, s.wrLedger, ChargeOf(s.receiver.rd, s.receiver.wr));
    } else {
      StillExplained(s.charges, s.rdLedger, s.wrLedger, t.rdLedger, t.wrLedger);
    }
  }

  /** Under every word-level interleaving each charge is that of one store of the read word and one
      of the write word, or of a cleaned word, and no store is charged twice: along the charges the
      numbers of the stores strictly increase, word by word. */
  lemma {:induction false} NoStoreChargedTwice(r: Run, n: nat)
    requires r.Valid() && n <= |r.actions|
    ensures Inv(r.states[n]) && LedgersInv(r.states[n])
    ensures ChargesExplained(r.states[n])
    ensures InOrder(r.states[n].rdLedger.used) && InOrder(r.states[n].wrLedger.used)
  {
    if n > 0 {
      NoStoreChargedTwice(r, n - 1);
      assert r.Step(n - 1);
      InvStep(r.states[n - 1], r.actions[n - 1]);
      LedgersStep(r.states[n - 1], r.actions[n - 1]);
      ExplainedStep(r.states[n - 1], r.actions[n - 1]);
    }
  }

  function Unread(x: int): nat { if x < 0 then 0 else x }

  /** What is still to be consumed from one word, on top of `consumed`, was stored. `held` is a
      value read but not yet added; once added, the word is dead until it is cleaned. */
  ghost predicate WordInv(seen: bool, word: int, stored: nat, consumed: int, open: bool, held: int) {
    && consumed + Unread(held) <= stored
    && CLEANED <= held
    && if seen then CLEANED <= word && (open ==> consumed + Unread(word) <= stored) else consumed == 0
  }

  ghost predicate Inv(s: State) {
    && WordInv(s.seenRd, s.rd, s.storedRd, s.consumedRd,
               s.receiver.Waiting? || s.receiver.Awake? || s.receiver.CleanedRd? || s.receiver.CleanedBoth?,
               if s.receiver.GotRd? || s.receiver.GotBoth? then s.receiver.rd else CLEANED)
    && WordInv(s.seenWr, s.wr, s.storedWr, s.consumedWr,
               s.receiver.Waiting? || s.receiver.Awake? || s.receiver.GotRd? || s.receiver.CleanedBoth?,
               if s.receiver.GotBoth? then s.receiver.wr else CLEANED)
    && (s.ready || !s.receiver.Waiting? ==> s.seenRd && s.seenWr)
    && (s.writer.Storing? ==> (s.writer.rdDone ==> s.seenRd) && (s.writer.wrDone ==> s.seenWr))
    && 4 * Sum(s.charges) <= s.consumedRd + s.consumedWr
  }

  lemma InvStep(s: State, a: Action)
    requires Inv(s) && Enabled(s, a)
    ensures Inv(Apply(s, a))
  {
    if a.Add? { AddKeeps(s); }
  }

  lemma AddKeeps(s: State)
    requires Inv(s) && Enabled(s, Add)
    ensures Inv(Apply(s, Add))
  {
    var charge := ChargeOf(s.receiver.rd, s.receiver.wr);
    ChargeAtMostQuarter(s.receiver.rd, s.receiver.wr);
    SumAppend(s.charges, charge);
  }

  lemma SumAppend(xs: seq<int>, x: int)
    ensures Sum(xs + [x]) == Sum(xs) + x
  {
    assert (xs + [x])[..|xs|] == xs;
  }

  /** Hence, under every word-level interleaving of writer and receiver, torn samples and wakes that find
      cleaned words included, four times the total charge never exceeds the beats written. */
  lemma {:induction false} ChargesBelowBeats(r: Run, n: nat)
    requires r.Valid() && n <= |r.actions|
    ensures Inv(r.states[n])
    ensures 4 * Sum(r.states[n].charges) <= r.states[n].storedRd + r.states[n].storedWr
  {
    if n > 0 {
      ChargesBelowBeats(r, n - 1);
      assert r.Step(n - 1);
      InvStep(r.states[n - 1], r.actions[n - 1]);
    }
  }

  // ---------- every sample is charged exactly once ----------

  /** A write finds the receiver waiting with nothing published, and its sample fits the int
      arithmetic. */
  ghost predicate Orderly(s: State, a: Action) {
    a.Open? ==> s.receiver.Waiting? && !s.ready && a.r + a.w < 0x800_0000
  }

  ghost predicate Exact(s: State) {
    && |s.samples| - 1 <= |s.charges| <= |s.samples|
    && (forall k :: 0 <= k < |s.samples| ==> s.samples[k].0 + s.samples[k].1 < 0x800_0000)
    && (forall k :: 0 <= k < |s.charges| ==> s.charges[k] == (s.samples[k].0 + s.samples[k].1) / 4)
    && (s.writer.Storing? ==>
          && s.receiver.Waiting? && !s.ready
          && s.samples != [] && s.samples[|s.samples| - 1] == (s.writer.r, s.writer.w)
          && (s.writer.rdDone ==> s.rd == s.writer.r) && (s.writer.wrDone ==> s.wr == s.writer.w))
    && (Outstanding(s) ==>
          && s.samples != [] && |s.charges| == |s.samples| - 1
          && (s.writer.Quiet? ==>
                && s.wr == s.samples[|s.samples| - 1].1
                && s.samples[|s.samples| - 1].0
                   == (if s.receiver.GotRd? || s.receiver.GotBoth? then s.receiver.rd else s.rd)
                && (s.receiver.GotBoth? ==> s.receiver.wr == s.wr)))
    && (!Outstanding(s) ==> |s.charges| == |s.samples|)
    && (!s.receiver.Waiting? ==> s.ready)
  }

  /** A sample has been opened and not yet charged. */
  predicate Outstanding(s: State) {
    || s.writer.Storing?
    || (s.ready && (s.receiver.Waiting? || s.receiver.Awake? || s.receiver.GotRd? || s.receiver.GotBoth?))
  }

  lemma ExactStep(s: State, a: Action)
    requires Exact(s) && Enabled(s, a) && Orderly(s, a)
    ensures Exact(Apply(s, a))
  {
    if a.Add? {
      ChargeAtMostQuarter(s.receiver.rd, s.receiver.wr);
    }
  }

  /** If every write finds the receiver waiting, each sample (r, w) is charged exactly once, in
      order, as floor((r + w) / 4), and only the newest can still be on its way. */
  lemma {:induction false} EverySampleChargedOnce(r: Run, n: nat)
    requires r.Valid() && n <= |r.actions|
    requires forall k :: 0 <= k < n ==> r.Step(k) && Orderly(r.states[k], r.actions[k])
    ensures Exact(r.states[n])
    ensures forall k :: 0 <= k < |r.states[n].charges| ==>
      k < |r.states[n].samples| && r.states[n].charges[k] == (r.states[n].samples[k].0 + r.states[n].samples[k].1) / 4
    ensures !Outstanding(r.states[n]) ==> |r.states[n].charges| == |r.states[n].samples|
  {
    if n > 0 {
      EverySampleChargedOnce(r, n - 1);
      assert r.Step(n - 1) && Orderly(r.states[n - 1], r.actions[n - 1]);
      ExactStep(r.states[n - 1], r.actions[n - 1]);
    }
  }

  // ---------- which writes are charged ----------

  /** A part of a run, from `s` to the last state. */
  ghost predicate Path(p: Run, s: State) {
    && |p.states| == |p.actions| + 1
    && p.states[0] == s
    && forall k :: 0 <= k < |p.actions| ==> p.Step(k)
  }

  predicate AtRest(s: State) {
    s.writer.Quiet? && s.receiver.Waiting? && !s.ready
  }

  /** Only the first action of a path opens a write. */
  ghost predicate Single(p: Run) {
    |p.actions| > 0 && forall k :: 0 < k < |p.actions| ==> !p.actions[k].Open?
  }

  /** From `s` the sample (r, w) is written, no other write follows, and both sides come to rest. */
  ghost predicate Schedule(p: Run, s: State, r: nat, w: nat) {
    && Path(p, s) && Single(p) && p.actions[0] == Open(r, w)
    && AtRest(p.states[|p.actions|])
  }

  /** Exactly one more charge, and it is the sample's. */
  ghost predicate ChargedAlone(s: State, t: State, r: nat, w: nat) {
    t.charges == s.charges + [(r + w) / 4]
  }

  /** Where a sample written to a clean slot can be on its way. */
  ghost predicate OnItsWay(s: State, t: State, r: nat, w: nat) {
    if t.writer.Storing? then
      && t.receiver.Waiting? && !t.ready && t.charges == s.charges && t.writer.r == r && t.writer.w == w
      && (t.writer.rdDone ==> t.rd == r) && (t.writer.wrDone ==> t.wr == w)
    else if t.ready && (t.receiver.Waiting? || t.receiver.Awake? || t.receiver.GotRd? || t.receiver.GotBoth?) then
      && t.charges == s.charges && t.wr == w
      && (if t.receiver.GotRd? || t.receiver.GotBoth? then t.receiver.rd == r else t.rd == r)
      && (t.receiver.GotBoth? ==> t.receiver.wr == w)
    else
      ChargedAlone(s, t, r, w) && (t.receiver.Waiting? || t.ready)
  }

  lemma OnItsWayStep(s: State, t: State, a: Action, r: nat, w: nat)
    requires OnItsWay(s, t, r, w) && Enabled(t, a) && !a.Open? && r + w < 0x800_0000
    ensures OnItsWay(s, Apply(t, a), r, w)
  {
    if a.Add? { ChargeAtMostQuarter(r, w); }
  }

  lemma {:induction false} CleanSlotDelivers(p: Run, s: State, r: nat, w: nat, n: nat)
    requires Schedule(p, s, r, w) && AtRest(s) && r + w < 0x800_0000 && 1 <= n <= |p.actions|
    ensures OnItsWay(s, p.states[n], r, w)
  {
    if n == 1 {
      assert p.Step(0);
    } else {
      CleanSlotDelivers(p, s, r, w, n - 1);
      assert p.Step(n - 1);
      OnItsWayStep(s, p.states[n - 1], p.actions[n - 1], r, w);
    }
  }

  lemma Then(p: Run, s: State, t: State, a: Action) returns (q: Run, u: State)
    requires Path(p, s) && p.states[|p.actions|] == t && Enabled(t, a)
    ensures Path(q, s) && u == Apply(t, a) && q.states[|q.actions|] == u && q.actions == p.actions + [a]
    ensures Single(p) && !a.Open? ==> Single(q) && q.actions[0] == p.actions[0]
  {
    u := Apply(t, a);
    q := Run(p.states + [u], p.actions + [a]);
    forall k | 0 <= k < |q.actions|
      ensures q.Step(k)
    {
      if k < |p.actions| { assert p.Step(k); }
    }
  }

  /** A whole write in one go. */
  lemma WholeWrite(s: State, r: nat, w: nat) returns (p: Run, t: State)
    requires s.writer.Quiet? && r < TWO_31 && w < TWO_31
    ensures Path(p, s) && p.states[|p.actions|] == t && p.actions == [Open(r, w), StoreRd, StoreWr, Publish]
    ensures t.writer.Quiet? && t.ready && t.receiver == s.receiver && t.charges == s.charges && t.rd == r && t.wr == w
  {
    p := Run([s], []);
    p, t := Then(p, s, s, Open(r, w));
    p, t := Then(p, s, t, StoreRd);
    p, t := Then(p, s, t, StoreWr);
    p, t := Then(p, s, t, Publish);
  }

  /** How many accesses the receiver still has to make in its turn. */
  function Remaining(c: Receiver): nat {
    match c
    case Waiting => 0
    case Awake => 6
    case GotRd(_) => 5
    case GotBoth(_, _) => 4
    case Added => 3
    case CleanedRd => 2
    case CleanedBoth => 1
  }

  function NextAccess(c: Receiver): Action {
    match c
    case Waiting => Wake
    case Awake => ReadRd
    case GotRd(_) => ReadWr
    case GotBoth(_, _) => Add
    case Added => CleanRd
    case CleanedRd => CleanWr
    case CleanedBoth => Unready
  }

  /** The receiver finishes the turn it is in, undisturbed. */
  lemma {:induction false} FinishTurn(p: Run, s: State, t: State) returns (q: Run, u: State)
    requires Path(p, s) && Single(p) && p.states[|p.actions|] == t && t.writer.Quiet? && !t.receiver.Waiting?
    ensures Path(q, s) && Single(q) && q.actions[0] == p.actions[0] && q.states[|q.actions|] == u && AtRest(u)
    ensures |u.charges| == |t.charges| + if Remaining(t.receiver) >= 4 then 1 else 0
    ensures Remaining(t.receiver) < 4 ==> u.charges == t.charges
    decreases Remaining(t.receiver)
  {
    q, u := Then(p, s, t, NextAccess(t.receiver));
    if !u.receiver.Waiting? { q, u := FinishTurn(q, s, u); }
  }

  /** The charges that are due once the write has come to rest: its own, and that of a sample that is
      already published and not yet charged. */
  function Due(s: State): nat {
    1 + if s.ready && (s.receiver.Waiting? || Remaining(s.receiver) >= 4) then 1 else 0
  }

  /** A write to a slot that is not clean can make one charge fewer than are due: it replaces an
      uncharged sample, or the receiver cleans and unpublishes it unread. */
  lemma SomeScheduleLoses(s: State, r: nat, w: nat) returns (p: Run)
    requires s.writer.Quiet? && (s.receiver.Waiting? || s.ready) && !AtRest(s) && r < TWO_31 && w < TWO_31
    ensures Schedule(p, s, r, w) && |p.states[|p.actions|].charges| < |s.charges| + Due(s)
  {
    var t;
    p, t := WholeWrite(s, r, w);
    if s.receiver.Waiting? { p, t := Then(p, s, t, Wake); }
    p, t := FinishTurn(p, s, t);
  }

  /** In every run the receiver works only on a published slot. */
  lemma {:induction false} WorksOnPublished(q: Run, n: nat)
    requires q.Valid() && n <= |q.actions|
    ensures q.states[n].receiver.Waiting? || q.states[n].ready
  {
    if n > 0 {
      WorksOnPublished(q, n - 1);
      assert q.Step(n - 1);
    }
  }

  /** In every reachable state: a write and what is already due are charged under every schedule, with
      the value of the sample, if and only if the write finds the receiver waiting and nothing
      published. */
  lemma WriteChargedIff(q: Run, n: nat, r: nat, w: nat)
    requires q.Valid() && n <= |q.actions| && q.states[n].writer.Quiet? && r + w < 0x800_0000
    ensures (forall p: Run :: Schedule(p, q.states[n], r, w) ==>
               var t := p.states[|p.actions|];
               |t.charges| == |q.states[n].charges| + Due(q.states[n]) && t.charges[|t.charges| - 1] == (r + w) / 4)
       <==> q.states[n].receiver.Waiting? && !q.states[n].ready
  {
    var s := q.states[n];
    WorksOnPublished(q, n);
    if AtRest(s) {
      forall p: Run | Schedule(p, s, r, w)
        ensures ChargedAlone(s, p.states[|p.actions|], r, w)
      {
        CleanSlotDelivers(p, s, r, w, |p.actions|);
      }
    } else {
      var p := SomeScheduleLoses(s, r, w);
    }
  }

  /** A write while the receiver is between its charge and the cleaning is lost, whatever its sample:
      its publication wakes the receiver to the cleaned words, which take one event off the usage. */
  lemma OvertakingWriteIsLost(s: State, r: nat, w: nat) returns (p: Run)
    requires s.writer.Quiet? && s.receiver.Added? && r < TWO_31 && w < TWO_31
    ensures Schedule(p, s, r, w) && p.states[|p.actions|].charges == s.charges + [-1]
  {
    var t;
    p, t := StoresThenCleaning(s, r, w);
    p, t := Then(p, s, t, Unready);
    p, t := Then(p, s, t, Publish);
    p := CleanedTurn(p, s, t);
  }

  lemma StoresThenCleaning(s: State, r: nat, w: nat) returns (p: Run, t: State)
    requires s.writer.Quiet? && s.receiver.Added? && r < TWO_31 && w < TWO_31
    ensures Path(p, s) && Single(p) && p.actions[0] == Open(r, w) && p.states[|p.actions|] == t
    ensures t.writer == Storing(r, w, true, true) && t.receiver.CleanedBoth? && t.rd == t.wr == CLEANED
    ensures t.charges == s.charges
  {
    p := Run([s], []);
    p, t := Then(p, s, s, Open(r, w));
    p, t := Then(p, s, t, StoreRd);
    p, t := Then(p, s, t, StoreWr);
    p, t := Then(p, s, t, CleanRd);
    p, t := Then(p, s, t, CleanWr);
  }

  lemma CleanedTurn(p: Run, s: State, t: State) returns (q: Run)
    requires Path(p, s) && Single(p) && p.states[|p.actions|] == t && t.writer.Quiet? && t.receiver.Waiting?
    requires t.ready && t.rd == t.wr == CLEANED
    ensures Path(q, s) && Single(q) && q.actions[0] == p.actions[0] && AtRest(q.states[|q.actions|])
    ensures q.states[|q.actions|].charges == t.charges + [-1]
  {
    var u;
    q, u := CleanedReads(p, s, t);
    AddCleaned(u);
    q, u := Then(q, s, u, Add);
    q, u := FinishTurn(q, s, u);
  }

  lemma AddCleaned(t: State)
    requires t.receiver == GotBoth(CLEANED, CLEANED)
    ensures Enabled(t, Add)
    ensures var u := Apply(t, Add);
      u.charges == t.charges + [-1] && u.receiver.Added? && u.writer == t.writer
  {
    ChargeAtMostQuarter(CLEANED, CLEANED);
  }

  lemma CleanedReads(p: Run, s: State, t: State) returns (q: Run, u: State)
    requires Path(p, s) && Single(p) && p.states[|p.actions|] == t && t.writer.Quiet? && t.receiver.Waiting?
    requires t.ready && t.rd == t.wr == CLEANED
    ensures Path(q, s) && Single(q) && q.actions[0] == p.actions[0] && q.states[|q.actions|] == u
    ensures u.receiver == GotBoth(CLEANED, CLEANED) && u.writer.Quiet? && u.charges == t.charges
  {
    q, u := Then(p, s, t, Wake);
    q, u := Then(q, s, u, ReadRd);
    q, u := Then(q, s, u, ReadWr);
  }

  // ---------- the mailbox as the module runs it ----------

  /** One turn of the receiver's loop with no write in between. */
  function Turn(s: State): State
    requires Enabled(s, Wake)
  {
    var t := Apply(Apply(Apply(Apply(s, Wake), ReadRd), ReadWr), Add);
    Apply(Apply(Apply(t, CleanRd), CleanWr), Unready)
  }

  /** An undisturbed turn charges the published pair once and leaves the slot clean, so that the
      next turn needs a new write. */
  lemma TurnLaw(s: State)
    requires Enabled(s, Wake)
    ensures Turn(s).charges == s.charges + [ChargeOf(s.rd, s.wr)]
    ensures Turn(s).rd == Turn(s).wr == CLEANED && !Enabled(Turn(s), Wake)
    ensures Turn(s).writer == s.writer && Turn(s).samples == s.samples && Turn(s).receiver.Waiting?
  {
  }

  /** The slot's 16 bytes, of which the receiver reads two ints. */
  class Slot {
    const memory: array<Byte>
    var ready: bool

    ghost predicate Valid() {
      memory.Length == 16
    }

    ghost function Word(i: nat): int
      requires Valid() && i < 2
      reads memory
    {
      IntOf(memory[4 * i..4 * i + 4])
    }

    /** Fresh memory is not initialised. */
    constructor (garbage: seq<Byte>)
      requires |garbage| == 16
      ensures Valid() && fresh(memory) && memory[..] == garbage && !ready
    {
      memory := new Byte[16](i requires 0 <= i < 16 => garbage[i]);
      ready := false;
    }

    /** write() of any number of bytes: more than fit are refused, fewer leave the rest as it was. */
    method Write(buf: seq<Byte>) returns (ok: bool)
      requires Valid()
      modifies this`ready, memory
      ensures ok <==> |buf| <= 16
      ensures memory[..] == if ok then buf + old(memory[..])[|buf|..] else old(memory[..])
      ensures ready == (ok || old(ready))
    {
      if |buf| > 16 {
        return false;
      }
      Store(0, buf);
      ready := true;
      return true;
    }

    method Store(at: nat, bytes: seq<Byte>)
      requires Valid() && at + |bytes| <= 16
      modifies memory
      ensures memory[..] == old(memory[..at]) + bytes + old(memory[at + |bytes|..])
    {
      ghost var was := memory[..];
      for i := 0 to |bytes|
        invariant memory[..] == was[..at] + bytes[..i] + was[at + i..]
      {
        memory[at + i] := bytes[i];
      }
    }

    /** One undisturbed turn of the receiver's loop (see `TurnLaw`). */
    method Receive() returns (charge: int)
      requires Valid() && ready
      modifies this`ready, memory
      ensures charge == ChargeOf(old(Word(0)), old(Word(1)))
      ensures CLEANED <= old(Word(0)) && CLEANED <= old(Word(1)) ==> 4 * charge <= old(Word(0)) + old(Word(1))
      ensures Word(0) == Word(1) == CLEANED && memory[8..] == old(memory[8..]) && !ready
      ensures forall k :: 0 <= k < 8 ==> memory[k] == 255
    {
      var rd, wr := IntOf(memory[0..4]), IntOf(memory[4..8]);
      charge := BytesToEvents(Wrap32(Wrap32(rd * 16) + Wrap32(wr * 16)));
      if CLEANED <= rd && CLEANED <= wr {
        ChargeAtMostQuarter(rd, wr);
      }
      CleanWords();
      ready := false;
    }

    /** Both words are set to -1, all bits ones. */
    method CleanWords()
      requires Valid()
      modifies memory
      ensures Word(0) == Word(1) == CLEANED && memory[8..] == old(memory[8..])
      ensures forall k :: 0 <= k < 8 ==> memory[k] == 255
    {
      IntRoundTrip(CLEANED);
      Store(0, IntBytes(CLEANED));
      Store(4, IntBytes(CLEANED));
      assert memory[0..4] == IntBytes(CLEANED) && memory[4..8] == IntBytes(CLEANED);
      EightOnes(memory[..]);
    }
  }

  lemma EightOnes(m: seq<Byte>)
    requires |m| == 16 && m[0..4] == m[4..8] == IntBytes(CLEANED)
    ensures forall k :: 0 <= k < 8 ==> m[k] == 255
  {
    CleanedBytes();
    forall k | 0 <= k < 8
      ensures m[k] == 255
    {
      if k < 4 { assert m[k] == m[0..4][k]; } else { assert m[k] == m[4..8][k - 4]; }
    }
  }

  /** A cleaned word has all bits set. */
  lemma CleanedBytes()
    ensures IntBytes(CLEANED) == [255, 255, 255, 255]
  {
    forall i | 0 <= i < 4
      ensures IntBytes(CLEANED)[i] == 255
    {
      ByteAt(TWO_32 - 1, 4, i);
      Pow2Bytes();
    }
  }

  lemma Pow2Bytes()
    ensures Pow2(0) == 1 && Pow2(8) == 0x100 && Pow2(16) == 0x1_0000 && Pow2(24) == 0x100_0000
  {
    Pow2Byte(0);
    Pow2Byte(1);
    Pow2Byte(2);
  }

  /** The profiler's eight bytes: the two words of the slot are the two ints. */
  method WritePair(slot: Slot, r: int, w: int)
    requires slot.Valid() && -TWO_31 <= r < TWO_31 && -TWO_31 <= w < TWO_31
    modifies slot, slot.memory
    ensures slot.Word(0) == r && slot.Word(1) == w && slot.ready && slot.memory[8..] == old(slot.memory[8..])
  {
    var ok := slot.Write(IntBytes(r) + IntBytes(w));
    TwoIntsArrive(r, w, old(slot.memory[..]));
  }

  /** Written and received: the beats of both words are charged, a quarter of their sum, and the slot is
      left with its first eight bytes set to 255. */
  method WriteThenReceive(slot: Slot, r: int, w: int) returns (charge: int)
    requires slot.Valid() && 0 <= r && 0 <= w && r + w < 0x800_0000
    modifies slot, slot.memory
    ensures charge == (r + w) / 4 && !slot.ready
    ensures forall k :: 0 <= k < 8 ==> slot.memory[k] == 255
    ensures slot.memory[8..] == old(slot.memory[8..])
  {
    WritePair(slot, r, w);
    ChargeAtMostQuarter(r, w);
    charge := slot.Receive();
  }

  /** The two ints of the profiler's eight bytes arrive as the words the receiver reads. */
  lemma TwoIntsArrive(r: int, w: int, was: seq<Byte>)
    requires -TWO_31 <= r < TWO_31 && -TWO_31 <= w < TWO_31 && |was| == 16
    ensures var now := IntBytes(r) + IntBytes(w) + was[8..];
      |now| == 16 && IntOf(now[0..4]) == r && IntOf(now[4..8]) == w
  {
    var now := IntBytes(r) + IntBytes(w) + was[8..];
    assert now[0..4] == IntBytes(r) && now[4..8] == IntBytes(w);
    IntRoundTrip(r);
    IntRoundTrip(w);
  }
}
