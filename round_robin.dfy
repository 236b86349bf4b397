/** The round-robin passes. Which process is handed to `assign_processes`
    in which round depends only on the remaining-burst counters and the
    priorities, never on the RAM pool or the clock, so a pass is described in
    two layers: a schedule of slices computed from the counters, and the
    effect of applying those slices one after the other to the snapshot. */
module RoundRobin {
  import opened Processes
  import opened WaitingQueue
  import opened Admission

  /** The two classes the loop scans (and decrements) in every pass. */
  predicate InRoundRobin(p: Process)
  {
    p.priority == 2 || p.priority == 3
  }

  /** The class that a pass with this quantum dispatches: priority 2 for the
      quantum of 8, priority 3 for the quantum of 16, none for any other. */
  predicate Serves(quantum: int, p: Process)
  {
    (quantum == QuantumHigh && p.priority == 2) || (quantum == QuantumMedium && p.priority == 3)
  }

  /** The loop still has work for this entry. */
  predicate Pending(p: Process, r: int)
  {
    r > 0 && InRoundRobin(p)
  }

  /** The counter of one entry after one round: a final slice leaves it at
      minus the quantum (it is zeroed, then the quantum is subtracted). */
  function Decremented(p: Process, r: int, quantum: int): int
  {
    if !Pending(p, r) then r else if r <= quantum then -quantum else r - quantum
  }

  /** One hand-off of registry entry `index` to assign_processes; `last`
      tells the final slice (followed by a second RAM release) from a slice
      that still had more than a quantum left (followed by a requeue). */
  datatype Slice = Slice(index: nat, p: Process, last: bool)

  ghost predicate FromRegistry(reg: seq<Process>, ss: seq<Slice>)
  {
    forall k :: 0 <= k < |ss| ==> ss[k].index < |reg| && ss[k].p == reg[ss[k].index]
  }

  /** What the scan does at entry `i` of a round. */
  function SliceAt(reg: seq<Process>, rem: seq<int>, quantum: int, i: nat): seq<Slice>
    requires |rem| == |reg| && i < |reg|
  {
    if Pending(reg[i], rem[i]) && Serves(quantum, reg[i]) then [Slice(i, reg[i], rem[i] <= quantum)] else []
  }

  /** The slices of the first `n` entries of one round, in scan order. */
  function RoundSlices(reg: seq<Process>, rem: seq<int>, quantum: int, n: nat): (r: seq<Slice>)
    requires |rem| == |reg| && n <= |reg|
  {
    if n == 0 then [] else RoundSlices(reg, rem, quantum, n - 1) + SliceAt(reg, rem, quantum, n - 1)
  }

  /** The counters after one round. No counter grows, and the priority-0
      and priority-1 entries are never touched. */
  function NextRound(reg: seq<Process>, rem: seq<int>, quantum: int): (r: seq<int>)
    requires |rem| == |reg| && quantum > 0
    ensures |r| == |rem|
    ensures forall i :: 0 <= i < |rem| ==> r[i] <= rem[i]
    ensures forall i :: 0 <= i < |rem| && !InRoundRobin(reg[i]) ==> r[i] == rem[i]
  {
    seq(|rem|, i requires 0 <= i < |rem| => Decremented(reg[i], rem[i], quantum))
  }

  /** The loop's exit test: no round-robin entry has a positive counter. */
  predicate AllCompleted(reg: seq<Process>, rem: seq<int>)
    requires |rem| == |reg|
  {
    forall i :: 0 <= i < |rem| ==> !Pending(reg[i], rem[i])
  }

  /** The loop variant: the sum of the positive counters of the first `n`
      round-robin entries. */
  function Outstanding(reg: seq<Process>, rem: seq<int>, n: nat): nat
    requires |rem| == |reg| && n <= |reg|
  {
    if n == 0 then 0
    else Outstanding(reg, rem, n - 1) + (if Pending(reg[n - 1], rem[n - 1]) then rem[n - 1] else 0)
  }

  lemma {:induction false} RoundNeverRaises(reg: seq<Process>, rem: seq<int>, quantum: int, n: nat)
    requires |rem| == |reg| && n <= |reg| && quantum > 0
    ensures Outstanding(reg, NextRound(reg, rem, quantum), n) <= Outstanding(reg, rem, n)
  {
    if n > 0 {
      RoundNeverRaises(reg, rem, quantum, n - 1);
    }
  }

  lemma {:induction false} RoundLowersAt(reg: seq<Process>, rem: seq<int>, quantum: int, n: nat, j: nat)
    requires |rem| == |reg| && j < n <= |reg| && quantum > 0
    requires Pending(reg[j], rem[j])
    ensures Outstanding(reg, NextRound(reg, rem, quantum), n) < Outstanding(reg, rem, n)
  {
    if j < n - 1 {
      RoundLowersAt(reg, rem, quantum, n - 1, j);
    } else {
      RoundNeverRaises(reg, rem, quantum, n - 1);
    }
  }

  /** Termination of the round-robin loop: a round that finds work lowers
      the variant. */
  lemma RoundLowersOutstanding(reg: seq<Process>, rem: seq<int>, quantum: int)
    requires |rem| == |reg| && quantum > 0 && !AllCompleted(reg, rem)
    ensures Outstanding(reg, NextRound(reg, rem, quantum), |rem|) < Outstanding(reg, rem, |rem|)
  {
    var j :| 0 <= j < |rem| && Pending(reg[j], rem[j]);
    RoundLowersAt(reg, rem, quantum, |rem|, j);
  }

  /** All the slices of a pass, round after round, until the exit test holds. */
  function Schedule(reg: seq<Process>, rem: seq<int>, quantum: int): (r: seq<Slice>)
    requires |rem| == |reg| && quantum > 0
    decreases Outstanding(reg, rem, |rem|)
  {
    if AllCompleted(reg, rem) then []
    else
      RoundLowersOutstanding(reg, rem, quantum);
      RoundSlices(reg, rem, quantum, |rem|) + Schedule(reg, NextRound(reg, rem, quantum), quantum)
  }

  /** Every slice of a pass names a registry entry and that entry's process. */
  lemma {:induction false} RoundFromRegistry(reg: seq<Process>, rem: seq<int>, quantum: int, n: nat)
    requires |rem| == |reg| && n <= |reg|
    ensures FromRegistry(reg, RoundSlices(reg, rem, quantum, n))
  {
    if n > 0 {
      RoundFromRegistry(reg, rem, quantum, n - 1);
    }
  }

  lemma {:induction false} ScheduleFromRegistry(reg: seq<Process>, rem: seq<int>, quantum: int)
    requires |rem| == |reg| && quantum > 0
    ensures FromRegistry(reg, Schedule(reg, rem, quantum))
    decreases Outstanding(reg, rem, |rem|)
  {
    if !AllCompleted(reg, rem) {
      RoundLowersOutstanding(reg, rem, quantum);
      RoundFromRegistry(reg, rem, quantum, |rem|);
      ScheduleFromRegistry(reg, NextRound(reg, rem, quantum), quantum);
    }
  }

  /** A round that finds no work hands nothing over. */
  lemma {:induction false} RoundOfCompleted(reg: seq<Process>, rem: seq<int>, quantum: int, n: nat)
    requires |rem| == |reg| && n <= |reg| && AllCompleted(reg, rem)
    ensures RoundSlices(reg, rem, quantum, n) == []
  {
    if n > 0 {
      RoundOfCompleted(reg, rem, quantum, n - 1);
    }
  }

  /** The counters when the loop exits. */
  function Settled(reg: seq<Process>, rem: seq<int>, quantum: int): (r: seq<int>)
    requires |rem| == |reg| && quantum > 0
    ensures |r| == |rem|
    decreases Outstanding(reg, rem, |rem|)
  {
    if AllCompleted(reg, rem) then rem
    else
      RoundLowersOutstanding(reg, rem, quantum);
      Settled(reg, NextRound(reg, rem, quantum), quantum)
  }

  /** On exit every round-robin entry that had work ends at minus the
      quantum, whichever class it belongs to; every other entry is unchanged. */
  lemma {:induction false} SettledValue(reg: seq<Process>, rem: seq<int>, quantum: int, i: nat)
    requires |rem| == |reg| && quantum > 0 && i < |reg|
    ensures Settled(reg, rem, quantum)[i] == if Pending(reg[i], rem[i]) then -quantum else rem[i]
    decreases Outstanding(reg, rem, |rem|)
  {
    if !AllCompleted(reg, rem) {
      RoundLowersOutstanding(reg, rem, quantum);
      SettledValue(reg, NextRound(reg, rem, quantum), quantum, i);
    }
  }

  // The effect of the slices on the snapshot.

  /** rr_scheduler's requeue: the queue line from enqueue, then the quantum line. */
  function Requeue(s: Snapshot, p: Process): Snapshot
  {
    s.(waiting := Enqueued(s.waiting, p), log := s.log + [Queued(p.name), Requeued(p.name)])
  }

  /** A slice hands the process to assign_processes (a full dispatch if it
      fits, a refusal otherwise); a final slice is followed by a second
      release of the process's RAM, any other slice by a requeue. */
  function ApplySlice(s: Snapshot, sl: Slice): Snapshot
  {
    var s1 := AssignAll(s, [sl.p]);
    if sl.last then Release(s1, sl.p) else Requeue(s1, sl.p)
  }

  function Apply(s: Snapshot, ss: seq<Slice>): Snapshot
  {
    if ss == [] then s else ApplySlice(Apply(s, ss[..|ss| - 1]), ss[|ss| - 1])
  }

  lemma {:induction false} ApplyAppend(s: Snapshot, a: seq<Slice>, b: seq<Slice>)
    ensures Apply(s, a + b) == Apply(Apply(s, a), b)
  {
    if b == [] {
      assert a + b == a;
    } else {
      assert (a + b)[..|a + b| - 1] == a + b[..|b| - 1];
      ApplyAppend(s, a, b[..|b| - 1]);
    }
  }

  /** Every counter starts at its process's burst time. */
  function Bursts(reg: seq<Process>): (r: seq<int>)
    ensures |r| == |reg| && forall i :: 0 <= i < |reg| ==> r[i] == reg[i].burstTime
  {
    seq(|reg|, i requires 0 <= i < |reg| => reg[i].burstTime)
  }

  /** rr_scheduler with the given quantum. */
  function RrPass(s: Snapshot, reg: seq<Process>, quantum: int): Snapshot
    requires quantum > 0
  {
    Apply(s, Schedule(reg, Bursts(reg), quantum))
  }

  // How often each process is handed to assign_processes.

  /** The slices of registry entry `i`, in order. */
  function SlicesOf(ss: seq<Slice>, i: nat): seq<Slice>
  {
    if ss == [] then []
    else (if ss[0].index == i then [ss[0]] else []) + SlicesOf(ss[1..], i)
  }

  lemma {:induction false} SlicesOfAppend(a: seq<Slice>, b: seq<Slice>, i: nat)
    ensures SlicesOf(a + b, i) == SlicesOf(a, i) + SlicesOf(b, i)
  {
    if a == [] {
      assert a + b == b;
    } else {
      assert (a + b)[0] == a[0] && (a + b)[1..] == a[1..] + b;
      SlicesOfAppend(a[1..], b, i);
    }
  }

  /** The slices one process receives in a pass that finds its counter at
      `r`: a non-final slice per extra quantum, then one final slice. */
  function Trajectory(i: nat, p: Process, r: int, quantum: int): seq<Slice>
    requires quantum > 0
    decreases r
  {
    if Pending(p, r) && Serves(quantum, p) then
      if r <= quantum then [Slice(i, p, true)] else [Slice(i, p, false)] + Trajectory(i, p, r - quantum, quantum)
    else []
  }

  lemma {:induction false} SlicesOfRound(reg: seq<Process>, rem: seq<int>, quantum: int, n: nat, i: nat)
    requires |rem| == |reg| && n <= |reg|
    ensures SlicesOf(RoundSlices(reg, rem, quantum, n), i) == if i < n then SliceAt(reg, rem, quantum, i) else []
  {
    if n == 0 {
      assert RoundSlices(reg, rem, quantum, n) == [];
    } else {
      SlicesOfRound(reg, rem, quantum, n - 1, i);
      SlicesOfRoundStep(reg, rem, quantum, n, i);
    }
  }

  lemma SlicesOfRoundStep(reg: seq<Process>, rem: seq<int>, quantum: int, n: nat, i: nat)
    requires |rem| == |reg| && 0 < n <= |reg|
    requires SlicesOf(RoundSlices(reg, rem, quantum, n - 1), i) == if i < n - 1 then SliceAt(reg, rem, quantum, i) else []
    ensures SlicesOf(RoundSlices(reg, rem, quantum, n), i) == if i < n then SliceAt(reg, rem, quantum, i) else []
  {
    var a, b := RoundSlices(reg, rem, quantum, n - 1), SliceAt(reg, rem, quantum, n - 1);
    SlicesOfAppend(a, b, i);
    SlicesOfSliceAt(reg, rem, quantum, n - 1, i);
    if i == n - 1 {
      assert SlicesOf(a, i) + SlicesOf(b, i) == b;
    } else {
      assert SlicesOf(a, i) + SlicesOf(b, i) == SlicesOf(a, i);
    }
  }

  lemma SlicesOfSliceAt(reg: seq<Process>, rem: seq<int>, quantum: int, x: nat, i: nat)
    requires |rem| == |reg| && x < |reg|
    ensures SlicesOf(SliceAt(reg, rem, quantum, x), i) == if i == x then SliceAt(reg, rem, quantum, x) else []
  {
    var sl := SliceAt(reg, rem, quantum, x);
    if sl != [] {
      assert sl[1..] == [];
    }
  }

  /** Across all rounds, entry `i` receives exactly its trajectory. */
  lemma {:induction false} SlicesOfSchedule(reg: seq<Process>, rem: seq<int>, quantum: int, i: nat)
    requires |rem| == |reg| && quantum > 0 && i < |reg|
    ensures SlicesOf(Schedule(reg, rem, quantum), i) == Trajectory(i, reg[i], rem[i], quantum)
    decreases Outstanding(reg, rem, |rem|)
  {
    if !AllCompleted(reg, rem) {
      var next := NextRound(reg, rem, quantum);
      RoundLowersOutstanding(reg, rem, quantum);
      SlicesOfSchedule(reg, next, quantum, i);
      SlicesOfRound(reg, rem, quantum, |rem|, i);
      SlicesOfAppend(RoundSlices(reg, rem, quantum, |rem|), Schedule(reg, next, quantum), i);
    }
  }

  /** A trajectory from a positive counter `r` has m slices where m is the
      least number of quanta covering `r`, that is ceil(r / quantum), and only
      its last slice is final. */
  lemma {:induction false} TrajectoryShape(i: nat, p: Process, r: int, quantum: int)
    requires quantum > 0 && Pending(p, r) && Serves(quantum, p)
    ensures (|Trajectory(i, p, r, quantum)| - 1) * quantum < r <= |Trajectory(i, p, r, quantum)| * quantum
    ensures forall k :: 0 <= k < |Trajectory(i, p, r, quantum)| ==>
              Trajectory(i, p, r, quantum)[k] == Slice(i, p, k == |Trajectory(i, p, r, quantum)| - 1)
    decreases r
  {
    if r > quantum {
      var rest := Trajectory(i, p, r - quantum, quantum);
      TrajectoryShape(i, p, r - quantum, quantum);
      var m := |rest|;
      assert (m + 1) * quantum == m * quantum + quantum;
      assert m * quantum == (m - 1) * quantum + quantum;
      assert Trajectory(i, p, r, quantum) == [Slice(i, p, false)] + rest;
    }
  }

  /** The hand-off count of a round-robin pass: a process of the class the
      quantum serves, with burst b > 0, is handed to assign_processes exactly
      m times, m the least number with b <= m * quantum (ceil(b / quantum));
      each hand-off that fits the pool runs the full burst (SliceEffect).
      All but the last are followed by a requeue and the last by a second
      RAM release. Every other process is never handed over. */
  lemma RrDispatchCount(reg: seq<Process>, quantum: int, i: nat)
    requires quantum > 0 && i < |reg|
    ensures var mine := SlicesOf(Schedule(reg, Bursts(reg), quantum), i);
            if Serves(quantum, reg[i]) && reg[i].burstTime > 0 then
              (|mine| - 1) * quantum < reg[i].burstTime <= |mine| * quantum &&
              forall k :: 0 <= k < |mine| ==> mine[k] == Slice(i, reg[i], k == |mine| - 1)
            else mine == []
  {
    SlicesOfSchedule(reg, Bursts(reg), quantum, i);
    if Serves(quantum, reg[i]) && reg[i].burstTime > 0 {
      TrajectoryShape(i, reg[i], reg[i].burstTime, quantum);
    }
  }

  // The RAM pool across a pass.

  /** The RAM credited by the second release of every final slice. */
  function LastCredit(ss: seq<Slice>): int
  {
    if ss == [] then 0
    else LastCredit(ss[..|ss| - 1]) + (if ss[|ss| - 1].last then ss[|ss| - 1].p.ramRequired else 0)
  }

  lemma {:induction false} LastCreditAppend(a: seq<Slice>, b: seq<Slice>)
    ensures LastCredit(a + b) == LastCredit(a) + LastCredit(b)
  {
    if b == [] {
      assert a + b == a;
    } else {
      assert (a + b)[..|a + b| - 1] == a + b[..|b| - 1];
      assert (a + b)[|a + b| - 1] == b[|b| - 1];
      LastCreditAppend(a, b[..|b| - 1]);
    }
  }

  /** The RAM of the first `n` entries that the pass serves and that still
      have work. */
  function Credit(reg: seq<Process>, rem: seq<int>, quantum: int, n: nat): int
    requires |rem| == |reg| && n <= |reg|
  {
    if n == 0 then 0
    else Credit(reg, rem, quantum, n - 1) + CreditAt(reg, rem, quantum, n - 1)
  }

  /** Applying slices changes the pool by exactly the second releases. */
  lemma {:induction false} ApplyRam(s: Snapshot, ss: seq<Slice>)
    ensures Apply(s, ss).ram == s.ram + LastCredit(ss)
  {
    if ss != [] {
      var init := ss[..|ss| - 1];
      ApplyRam(s, init);
      AssignAllKeepsRam(Apply(s, init), [ss[|ss| - 1].p]);
    }
  }

  /** The RAM one entry adds to Credit. */
  function CreditAt(reg: seq<Process>, rem: seq<int>, quantum: int, i: nat): int
    requires |rem| == |reg| && i < |reg|
  {
    if Pending(reg[i], rem[i]) && Serves(quantum, reg[i]) then reg[i].ramRequired else 0
  }

  /** An entry served this round either is finished, and its slice is final
      and credits its RAM, or still has work in the next round. */
  lemma RoundCreditAt(reg: seq<Process>, rem: seq<int>, quantum: int, x: nat)
    requires |rem| == |reg| && x < |reg| && quantum > 0
    ensures LastCredit(SliceAt(reg, rem, quantum, x)) + CreditAt(reg, NextRound(reg, rem, quantum), quantum, x)
            == CreditAt(reg, rem, quantum, x)
  {
    var sl := SliceAt(reg, rem, quantum, x);
    assert NextRound(reg, rem, quantum)[x] == Decremented(reg[x], rem[x], quantum);
    if sl != [] {
      assert sl[..0] == [];
    }
  }

  lemma {:induction false} RoundCredit(reg: seq<Process>, rem: seq<int>, quantum: int, n: nat)
    requires |rem| == |reg| && n <= |reg| && quantum > 0
    ensures LastCredit(RoundSlices(reg, rem, quantum, n)) + Credit(reg, NextRound(reg, rem, quantum), quantum, n)
            == Credit(reg, rem, quantum, n)
  {
    if n > 0 {
      var x, next := n - 1, NextRound(reg, rem, quantum);
      var a, sl := RoundSlices(reg, rem, quantum, x), SliceAt(reg, rem, quantum, x);
      RoundCredit(reg, rem, quantum, x);
      RoundCreditAt(reg, rem, quantum, x);
      LastCreditAppend(a, sl);
      assert RoundSlices(reg, rem, quantum, n) == a + sl;
      assert Credit(reg, next, quantum, n) == Credit(reg, next, quantum, x) + CreditAt(reg, next, quantum, x);
    }
  }

  lemma {:induction false} CreditOfCompleted(reg: seq<Process>, rem: seq<int>, quantum: int, n: nat)
    requires |rem| == |reg| && n <= |reg| && AllCompleted(reg, rem)
    ensures Credit(reg, rem, quantum, n) == 0
  {
    if n > 0 {
      CreditOfCompleted(reg, rem, quantum, n - 1);
    }
  }

  lemma {:induction false} ScheduleCredit(reg: seq<Process>, rem: seq<int>, quantum: int)
    requires |rem| == |reg| && quantum > 0
    ensures LastCredit(Schedule(reg, rem, quantum)) == Credit(reg, rem, quantum, |rem|)
    decreases Outstanding(reg, rem, |rem|)
  {
    if AllCompleted(reg, rem) {
      CreditOfCompleted(reg, rem, quantum, |rem|);
    } else {
      var next := NextRound(reg, rem, quantum);
      RoundLowersOutstanding(reg, rem, quantum);
      ScheduleCredit(reg, next, quantum);
      RoundCredit(reg, rem, quantum, |rem|);
      LastCreditAppend(RoundSlices(reg, rem, quantum, |rem|), Schedule(reg, next, quantum));
    }
  }

  /** RAM net balance of a round-robin pass: the pool grows by the RAM of
      every served process with a positive burst, because its final slice
      releases its RAM a second time. */
  lemma RrPassRam(s: Snapshot, reg: seq<Process>, quantum: int)
    requires quantum > 0
    ensures RrPass(s, reg, quantum).ram == s.ram + Credit(reg, Bursts(reg), quantum, |reg|)
  {
    ApplyRam(s, Schedule(reg, Bursts(reg), quantum));
    ScheduleCredit(reg, Bursts(reg), quantum);
  }

  /** The clock never runs backwards while burst times are not negative. */
  lemma {:induction false} ApplyClock(s: Snapshot, ss: seq<Slice>)
    requires forall k :: 0 <= k < |ss| ==> ss[k].p.burstTime >= 0
    ensures Apply(s, ss).clock >= s.clock
  {
    if ss != [] {
      var init := ss[..|ss| - 1];
      ApplyClock(s, init);
      AssignAllClock(Apply(s, init), [ss[|ss| - 1].p]);
      assert [ss[|ss| - 1].p][1..] == [];
    }
  }

  lemma RrPassClock(s: Snapshot, reg: seq<Process>, quantum: int)
    requires quantum > 0
    requires forall i :: 0 <= i < |reg| ==> reg[i].burstTime >= 0
    ensures RrPass(s, reg, quantum).clock >= s.clock
  {
    ScheduleFromRegistry(reg, Bursts(reg), quantum);
    ApplyClock(s, Schedule(reg, Bursts(reg), quantum));
  }

  /** A slice of a process that fits in the pool advances the clock by the
      process's full burst, whatever its counter was; a refused slice leaves
      the clock alone. A final slice raises the pool by the process's RAM
      either way. */
  lemma SliceEffect(s: Snapshot, sl: Slice)
    ensures ApplySlice(s, sl).clock == s.clock + (if RamAvailable(sl.p, s.ram) then sl.p.burstTime else 0)
    ensures ApplySlice(s, sl).ram == s.ram + (if sl.last then sl.p.ramRequired else 0)
  {
    AssignAllSingle(s, sl.p);
  }

  /** A lone priority-2 process with burst 20 and 100 of RAM, starting from
      a full pool: the quantum-8 pass dispatches its whole burst three times,
      so the clock advances by 60, and leaves the pool 100 above the total. */
  lemma RrRepeatsAndOverCredits(s: Snapshot, p: Process)
    requires p.priority == 2 && p.burstTime == 20 && p.ramRequired == 100 && s.ram == TotalRam
    ensures RrPass(s, [p], QuantumHigh).clock == s.clock + 60
    ensures RrPass(s, [p], QuantumHigh).ram == TotalRam + 100
  {
    var ss := Schedule([p], Bursts([p]), QuantumHigh);
    var f, t := Slice(0, p, false), Slice(0, p, true);
    SlicesOfSchedule([p], Bursts([p]), QuantumHigh, 0);
    assert Trajectory(0, p, 20, 8) == [f] + Trajectory(0, p, 12, 8);
    assert Trajectory(0, p, 12, 8) == [f] + Trajectory(0, p, 4, 8);
    assert Trajectory(0, p, 4, 8) == [t];
    ScheduleFromRegistry([p], Bursts([p]), QuantumHigh);
    SlicesOfAll(ss, 0);
    assert ss == [f, f, t];
    var s1 := Apply(s, [f]);
    var s2 := Apply(s, [f, f]);
    assert [f][..0] == [] && [f, f][..1] == [f] && ss[..2] == [f, f];
    SliceEffect(s, f);
    assert Apply(s, [f]) == ApplySlice(Apply(s, []), f);
    assert s1 == ApplySlice(s, f);
    SliceEffect(s1, f);
    assert s2 == ApplySlice(s1, f);
    SliceEffect(s2, t);
    assert RrPass(s, [p], QuantumHigh) == ApplySlice(s2, t);
  }

  /** A priority-2 process with burst 20 that needs 3000 of RAM, more than
      the machine has: the quantum-8 pass from a full pool refuses all three
      of its slices, so the clock does not move, yet the release after the
      final slice still credits its 3000. With the pool at 5048, a
      priority-3 process that also needs 3000 is dispatched by the
      quantum-16 pass. */
  lemma OversizedAdmittedLater(s: Snapshot, p: Process, q: Process)
    requires p.priority == 2 && p.burstTime == 20 && p.ramRequired == 3000 && s.ram == TotalRam
    requires q.priority == 3 && q.burstTime == 10 && q.ramRequired == 3000
    ensures RrPass(s, [p], QuantumHigh).clock == s.clock
    ensures RrPass(s, [p], QuantumHigh).ram == TotalRam + 3000
    ensures RrPass(RrPass(s, [p], QuantumHigh), [q], QuantumMedium).clock == s.clock + 10
  {
    var ss := Schedule([p], Bursts([p]), QuantumHigh);
    var f, t := Slice(0, p, false), Slice(0, p, true);
    SlicesOfSchedule([p], Bursts([p]), QuantumHigh, 0);
    assert Trajectory(0, p, 20, 8) == [f] + Trajectory(0, p, 12, 8);
    assert Trajectory(0, p, 12, 8) == [f] + Trajectory(0, p, 4, 8);
    assert Trajectory(0, p, 4, 8) == [t];
    ScheduleFromRegistry([p], Bursts([p]), QuantumHigh);
    SlicesOfAll(ss, 0);
    assert ss == [f, f, t];
    var s1 := Apply(s, [f]);
    var s2 := Apply(s, [f, f]);
    assert [f][..0] == [] && [f, f][..1] == [f] && ss[..2] == [f, f];
    SliceEffect(s, f);
    assert Apply(s, [f]) == ApplySlice(Apply(s, []), f);
    assert s1 == ApplySlice(s, f);
    SliceEffect(s1, f);
    assert s2 == ApplySlice(s1, f);
    SliceEffect(s2, t);
    var s3 := RrPass(s, [p], QuantumHigh);
    assert s3 == ApplySlice(s2, t);
    var tq := Slice(0, q, true);
    var sq := Schedule([q], Bursts([q]), QuantumMedium);
    SlicesOfSchedule([q], Bursts([q]), QuantumMedium, 0);
    assert Trajectory(0, q, 10, 16) == [tq];
    ScheduleFromRegistry([q], Bursts([q]), QuantumMedium);
    SlicesOfAll(sq, 0);
    assert sq == [tq];
    assert sq[..0] == [];
    assert Apply(s3, sq) == ApplySlice(Apply(s3, []), tq);
    SliceEffect(s3, tq);
  }

  /** When every slice belongs to entry `i`, selecting entry `i` keeps them all. */
  lemma {:induction false} SlicesOfAll(ss: seq<Slice>, i: nat)
    requires forall k :: 0 <= k < |ss| ==> ss[k].index == i
    ensures SlicesOf(ss, i) == ss
  {
    if ss != [] {
      SlicesOfAll(ss[1..], i);
    }
  }
}
