/** The simulator's mutable state and its scheduling passes: the global clock
    `current_time`, the RAM pool `ram_available`, the output log and the
    waiting queue, updated in place exactly as the passes do. Each method is
    proved against the value-level description of the same step. */
module Simulation {
  import opened Processes
  import opened WaitingQueue
  import opened Sorting
  import opened Admission
  import opened RoundRobin

  class Sim {
    /** current_time */
    var clock: int
    /** ram_available */
    var ram: int
    /** The lines written to the output file, in order. */
    var log: seq<Event>
    const waiting: Queue
    /** The process table the passes draw from; only its processes are
        ever queued, so only their links are ever rewritten. */
    ghost const Procs: set<Process>

    ghost predicate Valid()
      reads waiting, waiting.Contents
    {
      waiting.Valid() && forall j :: 0 <= j < |waiting.Contents| ==> waiting.Contents[j] in Procs
    }

    ghost function Snap(): Snapshot
      reads this, waiting
    {
      Snapshot(clock, ram, log, waiting.Contents)
    }

    /** The state when the passes start: the clock at 0, the whole RAM free,
        nothing written and an empty waiting queue. */
    constructor (procs: set<Process>)
      ensures Valid() && Snap() == Snapshot(0, TotalRam, [], []) && Procs == procs
      ensures fresh(waiting)
    {
      clock := 0;
      ram := TotalRam;
      log := [];
      waiting := new Queue();
      Procs := procs;
    }

    /** release_ram */
    method ReleaseRam(p: Process)
      requires Valid()
      modifies this
      ensures Valid() && Snap() == Release(old(Snap()), p)
    {
      ram := ram + p.ramRequired;
      log := log + [ReleasesRam(p.name)];
    }

    /** assign_process: takes the RAM, runs the whole burst from the current
        time and releases the RAM again. */
    method AssignProcess(p: Process, cpu: int)
      requires Valid()
      modifies this
      ensures Valid() && Snap() == Dispatch(old(Snap()), p, cpu)
    {
      ram := ram - p.ramRequired;
      log := log + [Assigned(p.name, cpu), Starts(p.name, clock)];
      clock := clock + p.burstTime;
      log := log + [Completes(p.name, clock), Terminated(p.name)];
      ReleaseRam(p);
    }

    /** handle_insufficient_ram */
    method HandleInsufficientRam(p: Process)
      requires Valid() && p in Procs
      modifies this, waiting, Procs
      ensures Valid() && Snap() == Refuse(old(Snap()), p)
    {
      log := log + [NotAssigned(p.name)];
      log := waiting.Enqueue(p, log);
    }

    /** assign_processes over the processes `ps` (the C code receives them
        as a pointer into the registry and a count). */
    method AssignProcesses(ps: seq<Process>)
      requires Valid() && forall k :: 0 <= k < |ps| ==> ps[k] in Procs
      modifies this, waiting, Procs
      ensures Valid() && Snap() == AssignAll(old(Snap()), ps)
    {
      ghost var s0 := Snap();
      for i := 0 to |ps|
        invariant Valid() && Snap() == AssignAll(s0, ps[..i])
      {
        ghost var before := Snap();
        var p := ps[i];
        if RamAvailable(p, ram) {
          if p.priority == 0 {
            AssignProcess(p, 1);
          } else {
            AssignProcess(p, 2);
          }
        } else {
          HandleInsufficientRam(p);
        }
        PrefixStep(s0, ps, i, before, Snap());
      }
      assert ps[..|ps|] == ps;
    }

    /** fcfs_scheduler: the priority-0 processes in registry order. */
    method FcfsScheduler(reg: array<Process>)
      requires Valid() && forall k :: 0 <= k < reg.Length ==> reg[k] in Procs
      modifies this, waiting, Procs
      ensures Valid() && Snap() == FcfsPass(old(Snap()), reg[..])
    {
      ghost var s0 := Snap();
      for i := 0 to reg.Length
        invariant Valid() && Snap() == AssignAll(s0, WithKey(reg[..i], Priority, 0))
      {
        ghost var before := Snap();
        if reg[i].priority == 0 {
          AssignProcesses(reg[i..i + 1]);
        }
        assert reg[..i + 1] == reg[..i] + [reg[i]];
        FilterStep(s0, reg[..i], reg[i], 0, before, Snap());
      }
      assert reg[..reg.Length] == reg[..];
    }

    /** The first loop of sjf_scheduler: the processes of priority `k`, in
        registry order, copied to the front of a new buffer. */
    static method CollectPriority(reg: array<Process>, k: int) returns (buf: array<Process>, count: nat)
      ensures fresh(buf) && count <= buf.Length
      ensures buf[..count] == WithKey(reg[..], Priority, k)
    {
      buf := new Process[reg.Length](i requires 0 <= i < reg.Length reads reg => reg[i]);
      count := 0;
      for i := 0 to reg.Length
        invariant count <= i && buf[..count] == WithKey(reg[..i], Priority, k)
        modifies buf
      {
        assert reg[..i + 1] == reg[..i] + [reg[i]];
        WithKeyAppend(reg[..i], [reg[i]], Priority, k);
        if reg[i].priority == k {
          buf[count] := reg[i];
          count := count + 1;
        }
      }
      assert reg[..reg.Length] == reg[..];
    }

    /** sjf_scheduler: the priority-1 processes are copied out in registry
        order, bubble-sorted by burst time, then handed over one by one. */
    method SjfScheduler(reg: array<Process>)
      requires Valid() && forall k :: 0 <= k < reg.Length ==> reg[k] in Procs
      modifies this, waiting, Procs
      ensures Valid() && Snap() == SjfPass(old(Snap()), reg[..])
    {
      ghost var s0 := Snap();
      var buf, count := CollectPriority(reg, 1);
      ghost var picked := buf[..count];
      SortProcessesByBurstTime(buf, count);
      ghost var sorted := buf[..count];
      SortedFromRegistry(picked, reg[..], Procs);
      for i := 0 to count
        invariant buf[..count] == sorted
        invariant Valid() && Snap() == AssignAll(s0, sorted[..i])
      {
        ghost var before := Snap();
        assert buf[i..i + 1] == [sorted[i]];
        AssignProcesses(buf[i..i + 1]);
        AssignAllSingle(before, sorted[i]);
        PrefixStep(s0, sorted, i, before, Snap());
      }
      assert sorted[..count] == sorted;
    }

    /** rr_scheduler's requeue of a process that still has more than a
        quantum left: it is enqueued again and the quantum line is logged. */
    method RequeueProcess(p: Process)
      requires Valid() && p in Procs
      modifies this, waiting, Procs
      ensures Valid() && Snap() == Requeue(old(Snap()), p)
    {
      log := waiting.Enqueue(p, log);
      log := log + [Requeued(p.name)];
    }

    /** One visit of the scan in rr_scheduler, at entry `i`: a pending
        entry of the served class is handed to assign_processes (dispatched
        in full if it fits) and then released a second time (final slice) or
        requeued; every pending entry of either
        round-robin class has its counter lowered by the quantum, or set to
        minus the quantum after its final slice. Answers whether the entry
        was pending, which clears all_completed. */
    method RrVisit(reg: array<Process>, i: nat, r: int, quantum: int) returns (pending: bool, r': int)
      requires Valid() && quantum > 0 && i < reg.Length && reg[i] in Procs
      modifies this, waiting, Procs
      ensures Valid()
      ensures pending == Pending(reg[i], r)
      ensures r' == Decremented(reg[i], r, quantum)
      ensures Snap() == if pending && Serves(quantum, reg[i])
                        then ApplySlice(old(Snap()), Slice(i, reg[i], r <= quantum))
                        else old(Snap())
    {
      ghost var s0 := Snap();
      pending := false;
      r' := r;
      if r' > 0 && (reg[i].priority == 2 || reg[i].priority == 3) {
        pending := true;
        if r' <= quantum {
          if (quantum == QuantumHigh && reg[i].priority == 2) || (quantum == QuantumMedium && reg[i].priority == 3) {
            assert reg[i..i + 1] == [reg[i]];
            AssignProcesses(reg[i..i + 1]);
            r' := 0;
            ReleaseRam(reg[i]);
            assert Snap() == ApplySlice(s0, Slice(i, reg[i], true));
          }
          r' := 0;
        } else {
          if (quantum == QuantumHigh && reg[i].priority == 2) || (quantum == QuantumMedium && reg[i].priority == 3) {
            assert reg[i..i + 1] == [reg[i]];
            AssignProcesses(reg[i..i + 1]);
            RequeueProcess(reg[i]);
            assert Snap() == ApplySlice(s0, Slice(i, reg[i], false));
          }
        }
        r' := r' - quantum;
      }
    }

    /** The visit at entry `i` carries the scan from `i` to `i + 1`. */
    method RrScanStep(reg: array<Process>, remaining: array<int>, quantum: int, i: nat, allCompleted: bool,
                      ghost rem0: seq<int>, ghost sRound: Snapshot)
      returns (allCompleted': bool)
      requires Valid() && quantum > 0 && i < reg.Length == remaining.Length == |rem0| && reg[i] in Procs
      requires forall k :: 0 <= k < remaining.Length ==> remaining[k] == Scanned(reg[..], rem0, quantum, i, k)
      requires allCompleted == NoneDue(reg[..], rem0, i)
      requires Snap() == Apply(sRound, RoundSlices(reg[..], rem0, quantum, i))
      modifies this, waiting, Procs, remaining
      ensures Valid()
      ensures forall k :: 0 <= k < remaining.Length ==> remaining[k] == Scanned(reg[..], rem0, quantum, i + 1, k)
      ensures allCompleted' == NoneDue(reg[..], rem0, i + 1)
      ensures Snap() == Apply(sRound, RoundSlices(reg[..], rem0, quantum, i + 1))
    {
      ghost var before := Snap();
      assert remaining[i] == rem0[i];
      var pending, r := RrVisit(reg, i, remaining[i], quantum);
      remaining[i] := r;
      allCompleted' := allCompleted && !pending;
      ScanStep(sRound, before, Snap(), reg[..], rem0, quantum, i, reg[i], rem0[i], pending);
    }

    /** One round of rr_scheduler's scan over the whole registry. */
    method RrRound(reg: array<Process>, remaining: array<int>, quantum: int) returns (allCompleted: bool)
      requires Valid() && quantum > 0 && reg.Length == remaining.Length
      requires forall k :: 0 <= k < reg.Length ==> reg[k] in Procs
      modifies this, waiting, Procs, remaining
      ensures Valid()
      ensures allCompleted == AllCompleted(reg[..], old(remaining[..]))
      ensures remaining[..] == NextRound(reg[..], old(remaining[..]), quantum)
      ensures Snap() == Apply(old(Snap()), RoundSlices(reg[..], old(remaining[..]), quantum, reg.Length))
    {
      ghost var rem0, sRound := remaining[..], Snap();
      allCompleted := true;
      for i := 0 to reg.Length
        invariant Valid() && |rem0| == remaining.Length
        invariant forall k :: 0 <= k < remaining.Length ==> remaining[k] == Scanned(reg[..], rem0, quantum, i, k)
        invariant allCompleted == NoneDue(reg[..], rem0, i)
        invariant Snap() == Apply(sRound, RoundSlices(reg[..], rem0, quantum, i))
      {
        allCompleted := RrScanStep(reg, remaining, quantum, i, allCompleted, rem0, sRound);
      }
      assert remaining[..] == NextRound(reg[..], rem0, quantum) by {
        assert forall k :: 0 <= k < remaining.Length ==> remaining[..][k] == NextRound(reg[..], rem0, quantum)[k];
      }
      assert allCompleted == AllCompleted(reg[..], rem0) by {
        NoneDueDone(reg[..], rem0, reg.Length);
      }
    }

    /** rr_scheduler: rounds over the whole registry until no priority-2 or
        priority-3 entry has a positive counter. */
    method RrScheduler(reg: array<Process>, quantum: int)
      requires Valid() && quantum > 0 && forall k :: 0 <= k < reg.Length ==> reg[k] in Procs
      modifies this, waiting, Procs
      ensures Valid() && Snap() == RrPass(old(Snap()), reg[..], quantum)
    {
      ghost var regS := reg[..];
      ghost var target := RrPass(Snap(), regS, quantum);
      var remaining := new int[reg.Length];
      for i := 0 to reg.Length
        invariant forall k :: 0 <= k < i ==> remaining[k] == reg[k].burstTime
        modifies remaining
      {
        remaining[i] := reg[i].burstTime;
      }
      assert remaining[..] == Bursts(regS);
      while true
        invariant Valid() && Apply(Snap(), Schedule(regS, remaining[..], quantum)) == target
        invariant Settled(regS, remaining[..], quantum) == Settled(regS, Bursts(regS), quantum)
        decreases Outstanding(regS, remaining[..], reg.Length)
      {
        ghost var rem0, sRound := remaining[..], Snap();
        var allCompleted := RrRound(reg, remaining, quantum);
        if allCompleted {
          RoundOfCompleted(regS, rem0, quantum, reg.Length);
          assert remaining[..] == Settled(regS, Bursts(regS), quantum);
          break;
        }
        RoundLowersOutstanding(regS, rem0, quantum);
        ApplyAppend(sRound, RoundSlices(regS, rem0, quantum, reg.Length), Schedule(regS, remaining[..], quantum));
      }
    }
  }

  /** One step of a scan that hands over, one at a time, the entries whose
      priority is `k`: `after` is what handing `x` over, or skipping it, did
      to `before`. */
  lemma FilterStep(s0: Snapshot, seen: seq<Process>, x: Process, k: int, before: Snapshot, after: Snapshot)
    requires before == AssignAll(s0, WithKey(seen, Priority, k))
    requires after == if x.priority == k then AssignAll(before, [x]) else before
    ensures after == AssignAll(s0, WithKey(seen + [x], Priority, k))
  {
    WithKeyAppend(seen, [x], Priority, k);
    assert [x][1..] == [];
    AssignAllAppend(s0, WithKey(seen, Priority, k), WithKey([x], Priority, k));
    AssignAllSingle(before, x);
  }

  /** One step of a loop that hands the processes of `ps` over one at a time. */
  lemma PrefixStep(s0: Snapshot, ps: seq<Process>, i: nat, before: Snapshot, after: Snapshot)
    requires i < |ps|
    requires before == AssignAll(s0, ps[..i]) && after == AssignOne(before, ps[i])
    ensures after == AssignAll(s0, ps[..i + 1])
  {
    assert ps[..i + 1] == ps[..i] + [ps[i]];
    AssignAllSnoc(s0, ps[..i], ps[i]);
  }

  /** The burst-sorted copy holds only processes of the process table. */
  lemma SortedFromRegistry(picked: seq<Process>, reg: seq<Process>, procs: set<Process>)
    requires picked == WithKey(reg, Priority, 1)
    requires forall k :: 0 <= k < |reg| ==> reg[k] in procs
    ensures forall k :: 0 <= k < |StableSort(picked, Burst)| ==> StableSort(picked, Burst)[k] in procs
  {
    var sorted := StableSort(picked, Burst);
    StableSortPermutes(picked, Burst);
    forall k | 0 <= k < |sorted|
      ensures sorted[k] in procs
    {
      var x := sorted[k];
      assert x in multiset(sorted);
      assert x in picked;
      var m :| 0 <= m < |reg| && reg[m] == x;
    }
  }

  /** Counter `k` part-way through a round: lowered once the scan has
      passed entry `k`, as the round found it otherwise. */
  function Scanned(reg: seq<Process>, rem: seq<int>, quantum: int, i: nat, k: nat): int
    requires |rem| == |reg| && k < |reg|
  {
    if k < i then Decremented(reg[k], rem[k], quantum) else rem[k]
  }

  /** all_completed part-way through a round: none of the first `i` entries
      was pending. */
  predicate NoneDue(reg: seq<Process>, rem: seq<int>, i: nat)
    requires |rem| == |reg| && i <= |reg|
  {
    i == 0 || (NoneDue(reg, rem, i - 1) && !Pending(reg[i - 1], rem[i - 1]))
  }

  lemma {:induction false} NoneDueDone(reg: seq<Process>, rem: seq<int>, n: nat)
    requires |rem| == |reg| && n <= |reg|
    ensures NoneDue(reg, rem, n) <==> forall k :: 0 <= k < n ==> !Pending(reg[k], rem[k])
  {
    if n > 0 {
      NoneDueDone(reg, rem, n - 1);
    }
  }

  /** One scan step of rr_scheduler: `after` is what the step at entry `i`,
      holding process `p` with counter `r`, did to `before`: the entry's
      slice when it is pending and of the served class, nothing otherwise. */
  lemma ScanStep(sRound: Snapshot, before: Snapshot, after: Snapshot, reg: seq<Process>, rem: seq<int>,
                 quantum: int, i: nat, p: Process, r: int, pending: bool)
    requires |rem| == |reg| && i < |reg| && p == reg[i] && r == rem[i] && pending == Pending(p, r)
    requires before == Apply(sRound, RoundSlices(reg, rem, quantum, i))
    requires after == if pending && Serves(quantum, p) then ApplySlice(before, Slice(i, p, r <= quantum)) else before
    ensures after == Apply(sRound, RoundSlices(reg, rem, quantum, i + 1))
  {
    var sl := SliceAt(reg, rem, quantum, i);
    ApplyAppend(sRound, RoundSlices(reg, rem, quantum, i), sl);
    if sl != [] {
      assert sl[..0] == [];
    }
  }
}
