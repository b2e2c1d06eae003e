/**
 The mount-wide budget for speculative fetches: a pool of byte permits in 64 KiB
 units and a pool of fetch slots, both taken without waiting before a block is
 fetched and given back when its fetch ends, over all interleavings of handles.
 */
module Permits {
  import opened Common

  const U32_MAX: nat := 0xFFFF_FFFF
  const PERMIT_UNIT: nat := 64 * 1024
  const MAX_INFLIGHT_BYTES: nat := 32 * 1024 * 1024
  const MAX_CONCURRENT_FETCHES: nat := 8
  const MAX_CLIENT_READ_SIZE: nat := 16 * 1024 * 1024

  datatype Policy = Policy(blockSize: u64, readAheadMax: u64) {
    /** What the constructor of the cached file system accepts. */
    predicate Accepted() { 0 < blockSize <= MAX_CLIENT_READ_SIZE }

    /** Bytes that speculation may have in flight. */
    function Budget(): nat { Min(readAheadMax, MAX_INFLIGHT_BYTES) }

    function Total(): nat { Min(Max(Budget() / PERMIT_UNIT, 1), 0x10_0000) }

    /** Read-ahead at this granularity is on, and it lays out blocks of at most that length. */
    predicate Lays(granularity: nat, length: nat) {
      0 < granularity <= blockSize && readAheadMax / granularity > 0 && 0 < length <= granularity
    }
  }

  /** `prefetch_permits_for`. */
  function UnitsFor(length: nat, total: nat): nat {
    Min(Max(Min((length + PERMIT_UNIT - 1) / PERMIT_UNIT, U32_MAX), 1), Max(total, 1))
  }

  /** A reservation: it has a slot and asks for units, it holds both while its block is fetched, or it
      has given its units back and still has its slot. */
  datatype Task = Asking(length: nat) | Holding(length: nat) | Draining

  datatype State = State(slots: nat, units: nat, tasks: seq<Task>)

  function Initial(p: Policy): State { State(MAX_CONCURRENT_FETCHES, p.Total(), []) }

  datatype Step =
    | TakeSlot(granularity: nat, length: nat)
    | TakeUnits(task: nat)
    | DropUnits(task: nat)
    | DropSlot(task: nat)

  predicate Enabled(p: Policy, s: State, step: Step) {
    match step
    case TakeSlot(granularity, length) => s.slots > 0 && p.Lays(granularity, length)
    case TakeUnits(i) => i < |s.tasks| && s.tasks[i].Asking?
    case DropUnits(i) => i < |s.tasks| && s.tasks[i].Holding?
    case DropSlot(i) => i < |s.tasks| && s.tasks[i].Draining?
  }

  /** One step; a refused request for units gives its slot back. */
  function Apply(p: Policy, s: State, step: Step): State
    requires Enabled(p, s, step)
  {
    match step
    case TakeSlot(_, length) => s.(slots := s.slots - 1, tasks := s.tasks + [Asking(length)])
    case TakeUnits(i) =>
      var length := s.tasks[i].length;
      if UnitsFor(length, p.Total()) <= s.units
      then s.(units := s.units - UnitsFor(length, p.Total()), tasks := s.tasks[i := Holding(length)])
      else State(s.slots + 1, s.units, s.tasks[..i] + s.tasks[i + 1..])
    case DropUnits(i) => s.(units := s.units + UnitsFor(s.tasks[i].length, p.Total()), tasks := s.tasks[i := Draining])
    case DropSlot(i) => State(s.slots + 1, s.units, s.tasks[..i] + s.tasks[i + 1..])
  }

  ghost predicate IsRun(p: Policy, states: seq<State>, steps: seq<Step>) {
    && |states| == |steps| + 1 && states[0] == Initial(p)
    && forall i {:trigger steps[i]} :: 0 <= i < |steps| ==> Enabled(p, states[i], steps[i]) && states[i + 1] == Apply(p, states[i], steps[i])
  }

  // ----- sums over the outstanding reservations -----

  /** What is summed: the bytes of the blocks, or the units they hold of a pool of `total`. */
  datatype Measure = Bytes | Units(total: nat)

  function Weight(m: Measure, t: Task): nat {
    if !t.Holding? then 0 else if m.Bytes? then t.length else UnitsFor(t.length, m.total)
  }

  function Held(m: Measure, tasks: seq<Task>): nat {
    if tasks == [] then 0 else Weight(m, tasks[0]) + Held(m, tasks[1..])
  }

  lemma {:induction false} HeldConcat(m: Measure, a: seq<Task>, b: seq<Task>)
    ensures Held(m, a + b) == Held(m, a) + Held(m, b)
  {
    if a == [] {
      assert a + b == b;
    } else {
      assert (a + b)[1..] == a[1..] + b;
      HeldConcat(m, a[1..], b);
    }
  }

  lemma HeldSplit(m: Measure, a: seq<Task>, t: Task, b: seq<Task>)
    ensures Held(m, a + [t] + b) == Held(m, a + b) + Weight(m, t)
  {
    HeldConcat(m, a + [t], b);
    HeldConcat(m, a, [t]);
    HeldConcat(m, a, b);
    assert Held(m, [t]) == Weight(m, t) + Held(m, []);
  }

  /** Removing or replacing one reservation moves the sum by its weight. */
  lemma HeldAt(m: Measure, tasks: seq<Task>, i: nat, t: Task)
    requires i < |tasks|
    ensures Held(m, tasks) == Held(m, tasks[..i] + tasks[i + 1..]) + Weight(m, tasks[i])
    ensures Held(m, tasks[i := t]) == Held(m, tasks[..i] + tasks[i + 1..]) + Weight(m, t)
  {
    assert tasks == tasks[..i] + [tasks[i]] + tasks[i + 1..];
    assert tasks[i := t] == tasks[..i] + [t] + tasks[i + 1..];
    HeldSplit(m, tasks[..i], tasks[i], tasks[i + 1..]);
    HeldSplit(m, tasks[..i], t, tasks[i + 1..]);
  }

  // ----- what every run keeps -----

  /** No slot and no unit is lost or invented, and every block fits the policy. */
  ghost predicate Inv(p: Policy, s: State) {
    && s.slots + |s.tasks| == MAX_CONCURRENT_FETCHES
    && s.units + Held(Units(p.Total()), s.tasks) == p.Total()
    && forall i :: 0 <= i < |s.tasks| && !s.tasks[i].Draining? ==> 0 < s.tasks[i].length <= p.Budget()
  }

  lemma PositiveQuotient(a: nat, d: nat)
    requires d > 0 && a / d > 0
    ensures d <= a
  {
  }

  lemma LaidBlockFitsBudget(p: Policy, granularity: nat, length: nat)
    requires p.Accepted() && p.Lays(granularity, length)
    ensures length <= p.Budget()
  {
    PositiveQuotient(p.readAheadMax, granularity);
  }

  lemma TakeSlotKeepsInv(p: Policy, s: State, granularity: nat, length: nat)
    requires p.Accepted() && Inv(p, s) && Enabled(p, s, TakeSlot(granularity, length))
    ensures Inv(p, Apply(p, s, TakeSlot(granularity, length)))
  {
    var m := Units(p.Total());
    LaidBlockFitsBudget(p, granularity, length);
    HeldConcat(m, s.tasks, [Asking(length)]);
    assert Held(m, [Asking(length)]) == 0 + Held(m, []);
  }

  lemma StepKeepsInv(p: Policy, s: State, step: Step)
    requires p.Accepted() && Inv(p, s) && Enabled(p, s, step)
    ensures Inv(p, Apply(p, s, step))
  {
    var m := Units(p.Total());
    match step {
      case TakeSlot(granularity, length) => TakeSlotKeepsInv(p, s, granularity, length);
      case TakeUnits(i) => HeldAt(m, s.tasks, i, Holding(s.tasks[i].length));
      case DropUnits(i) => HeldAt(m, s.tasks, i, Draining);
      case DropSlot(i) => HeldAt(m, s.tasks, i, Draining);
    }
  }

  lemma {:induction false} RunKeepsInv(p: Policy, states: seq<State>, steps: seq<Step>, n: nat)
    requires p.Accepted() && IsRun(p, states, steps) && n < |states|
    ensures Inv(p, states[n])
  {
    if n > 0 {
      RunKeepsInv(p, states, steps, n - 1);
      StepKeepsInv(p, states[n - 1], steps[n - 1]);
    }
  }

  // ----- from units to bytes -----

  /** A block asks for the least positive number of units that cover it or are the whole pool. */
  lemma UnitsForIsLeast(length: nat, total: nat, v: nat)
    requires total <= U32_MAX && v > 0
    ensures UnitsFor(length, total) <= v <==> length <= v * PERMIT_UNIT || v >= Max(total, 1)
  {
    var blocks := (length + PERMIT_UNIT - 1) / PERMIT_UNIT;
    assert blocks <= v <==> length <= v * PERMIT_UNIT;
  }

  /** A block whose request was not clamped down is covered by its units. */
  lemma UnclampedUnitsCover(length: nat, total: nat)
    requires length <= MAX_INFLIGHT_BYTES && UnitsFor(length, total) < total
    ensures length <= UnitsFor(length, total) * PERMIT_UNIT
  {
  }

  /** While nobody holds the whole pool, units cover bytes. */
  lemma {:induction false} UnitsCoverBytes(total: nat, tasks: seq<Task>)
    requires forall i :: 0 <= i < |tasks| && tasks[i].Holding? ==> tasks[i].length <= MAX_INFLIGHT_BYTES && UnitsFor(tasks[i].length, total) < total
    ensures Held(Bytes, tasks) <= Held(Units(total), tasks) * PERMIT_UNIT
  {
    if tasks != [] {
      UnitsCoverBytes(total, tasks[1..]);
      if tasks[0].Holding? {
        UnclampedUnitsCover(tasks[0].length, total);
      }
    }
  }

  /** A block holding the whole pool is alone. */
  lemma WholePoolIsAlone(total: nat, tasks: seq<Task>, i: nat)
    requires Held(Units(total), tasks) <= total && i < |tasks| && tasks[i].Holding? && UnitsFor(tasks[i].length, total) == total
    ensures Held(Bytes, tasks) == tasks[i].length
  {
    HeldAt(Units(total), tasks, i, Draining);
    HeldAt(Bytes, tasks, i, Draining);
    NoUnitsNoBytes(total, tasks[..i] + tasks[i + 1..]);
  }

  lemma {:induction false} NoUnitsNoBytes(total: nat, tasks: seq<Task>)
    requires Held(Units(total), tasks) == 0
    ensures Held(Bytes, tasks) == 0
  {
    if tasks != [] {
      NoUnitsNoBytes(total, tasks[1..]);
    }
  }

  /** When nobody holds a whole pool of one unit, nobody holds anything. */
  lemma {:induction false} NobodyHolds(tasks: seq<Task>)
    requires forall i :: 0 <= i < |tasks| ==> !tasks[i].Holding?
    ensures Held(Bytes, tasks) == 0
  {
    if tasks != [] {
      NobodyHolds(tasks[1..]);
    }
  }

  lemma InvBoundsBytes(p: Policy, s: State)
    requires p.Accepted() && Inv(p, s)
    ensures Held(Bytes, s.tasks) <= p.Budget()
  {
    var total := p.Total();
    if whole :| 0 <= whole < |s.tasks| && s.tasks[whole].Holding? && UnitsFor(s.tasks[whole].length, total) == total {
      WholePoolIsAlone(total, s.tasks, whole);
    } else if p.Budget() >= PERMIT_UNIT {
      UnitsCoverBytes(total, s.tasks);
      assert total * PERMIT_UNIT <= p.Budget();
    } else {
      NobodyHolds(s.tasks);
    }
  }

  // ----- theorems over whole runs -----

  /** At every moment the blocks holding permits total at most min(read_ahead_max_bytes, 32 MiB), at
      most eight of them are in flight, and once nothing is outstanding both pools are full again. */
  lemma SpeculationIsBounded(p: Policy, states: seq<State>, steps: seq<Step>, n: nat)
    requires p.Accepted() && IsRun(p, states, steps) && n < |states|
    ensures Held(Bytes, states[n].tasks) <= Min(p.readAheadMax, MAX_INFLIGHT_BYTES)
    ensures |states[n].tasks| <= MAX_CONCURRENT_FETCHES
    ensures states[n].units + Held(Units(p.Total()), states[n].tasks) == p.Total()
    ensures states[n].tasks == [] ==> states[n] == Initial(p)
  {
    RunKeepsInv(p, states, steps, n);
    InvBoundsBytes(p, states[n]);
  }

  /** The pool is as large as the budget allows, and never empty. */
  lemma PoolSpendsTheBudget(p: Policy)
    ensures p.Total() >= 1 && p.Budget() < (p.Total() + 1) * PERMIT_UNIT
    ensures p.Total() > 1 ==> p.Total() * PERMIT_UNIT <= p.Budget()
  {
    var units := p.Budget() / PERMIT_UNIT;
    assert units * PERMIT_UNIT <= p.Budget() < units * PERMIT_UNIT + PERMIT_UNIT;
  }

  /** At every moment a block is admitted exactly if its units and those held by the blocks in flight fit
      into the pool; a refused one leaves nothing behind. */
  lemma AdmittedExactly(p: Policy, states: seq<State>, steps: seq<Step>, n: nat)
    requires p.Accepted() && IsRun(p, states, steps) && n < |steps| && steps[n].TakeUnits?
    ensures var (s, s', i) := (states[n], states[n + 1], steps[n].task);
            && i < |s.tasks| && s.tasks[i].Asking?
            && (if Held(Units(p.Total()), s.tasks) + UnitsFor(s.tasks[i].length, p.Total()) <= p.Total()
                then s'.tasks == s.tasks[i := Holding(s.tasks[i].length)] && s'.slots == s.slots
                else s'.tasks == s.tasks[..i] + s.tasks[i + 1..] && s'.slots == s.slots + 1 && s'.units == s.units)
  {
    RunKeepsInv(p, states, steps, n);
  }
}
