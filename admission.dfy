/** The RAM admission controller and the first-come-first-served and
    shortest-job-first passes, stated on a value snapshot of the simulation
    state: the clock, the RAM pool, the output log and the waiting queue. */
module Admission {
  import opened Processes
  import opened WaitingQueue
  import opened Sorting

  datatype Snapshot = Snapshot(clock: int, ram: int, log: seq<Event>, waiting: seq<Process>)

  /** check_ram_availability: a process fits when it needs no more than what is free. */
  predicate RamAvailable(p: Process, ramAvailable: int)
  {
    p.ramRequired <= ramAvailable
  }

  /** assign_processes puts priority-0 processes on CPU-1 and every other one on CPU-2. */
  function Cpu(p: Process): int
  {
    if p.priority == 0 then 1 else 2
  }

  /** The five lines of one dispatch that starts at time `start`. */
  function DispatchEvents(p: Process, cpu: int, start: int): seq<Event>
  {
    [Assigned(p.name, cpu), Starts(p.name, start), Completes(p.name, start + p.burstTime),
     Terminated(p.name), ReleasesRam(p.name)]
  }

  /** release_ram */
  function Release(s: Snapshot, p: Process): Snapshot
  {
    s.(ram := s.ram + p.ramRequired, log := s.log + [ReleasesRam(p.name)])
  }

  /** assign_process: the process takes its RAM, runs its whole burst and
      gives the RAM back, so only the clock and the log change. */
  function Dispatch(s: Snapshot, p: Process, cpu: int): Snapshot
  {
    s.(clock := s.clock + p.burstTime, log := s.log + DispatchEvents(p, cpu, s.clock))
  }

  /** handle_insufficient_ram */
  function Refuse(s: Snapshot, p: Process): Snapshot
  {
    s.(log := s.log + [NotAssigned(p.name), Queued(p.name)], waiting := Enqueued(s.waiting, p))
  }

  /** One iteration of assign_processes. */
  function AssignOne(s: Snapshot, p: Process): Snapshot
  {
    if RamAvailable(p, s.ram) then Dispatch(s, p, Cpu(p)) else Refuse(s, p)
  }

  /** assign_processes over a whole list, one process after the other. */
  function AssignAll(s: Snapshot, ps: seq<Process>): Snapshot
    decreases |ps|
  {
    if ps == [] then s else AssignAll(AssignOne(s, ps[0]), ps[1..])
  }

  lemma {:induction false} AssignAllAppend(s: Snapshot, a: seq<Process>, b: seq<Process>)
    ensures AssignAll(s, a + b) == AssignAll(AssignAll(s, a), b)
    decreases |a|
  {
    if a == [] {
      assert a + b == b;
    } else {
      assert (a + b)[0] == a[0] && (a + b)[1..] == a[1..] + b;
      AssignAllAppend(AssignOne(s, a[0]), a[1..], b);
    }
  }

  /** assign_processes over a single process is one iteration. */
  lemma AssignAllSingle(s: Snapshot, p: Process)
    ensures AssignAll(s, [p]) == AssignOne(s, p)
  {
    assert [p][1..] == [];
  }

  /** Handing one more process over extends a pass by one iteration. */
  lemma AssignAllSnoc(s: Snapshot, ps: seq<Process>, p: Process)
    ensures AssignAll(s, ps + [p]) == AssignOne(AssignAll(s, ps), p)
  {
    AssignAllAppend(s, ps, [p]);
    AssignAllSingle(AssignAll(s, ps), p);
  }

  // Closed forms of a pass, with the pool fixed at its value on entry.

  /** The clock advance of one process in a pass against `pool`. */
  function Advance(p: Process, pool: int): int
  {
    if RamAvailable(p, pool) then p.burstTime else 0
  }

  /** The log lines of one process in a pass against `pool` at time `clock`:
      a dispatch quintuple, or the two refusal lines. */
  function Outcome(p: Process, clock: int, pool: int): seq<Event>
  {
    if RamAvailable(p, pool) then DispatchEvents(p, Cpu(p), clock) else [NotAssigned(p.name), Queued(p.name)]
  }

  /** Total burst of the processes that fit in `pool`. */
  function AdmittedBurst(ps: seq<Process>, pool: int): (r: int)
    ensures (forall x :: x in ps ==> x.burstTime >= 0) ==> r >= 0
  {
    if ps == [] then 0 else Advance(ps[0], pool) + AdmittedBurst(ps[1..], pool)
  }

  /** The processes that do not fit in `pool`, in order: exactly those of
      `ps` that check_ram_availability turns down. */
  function Refused(ps: seq<Process>, pool: int): (r: seq<Process>)
    ensures |r| <= |ps|
    ensures forall x :: x in r ==> x in ps && !RamAvailable(x, pool)
  {
    if ps == [] then []
    else (if RamAvailable(ps[0], pool) then [] else [ps[0]]) + Refused(ps[1..], pool)
  }

  /** A process of the pass is refused exactly when it does not fit. */
  lemma {:induction false} RefusedExactly(ps: seq<Process>, pool: int, x: Process)
    ensures x in Refused(ps, pool) <==> x in ps && !RamAvailable(x, pool)
  {
    if ps != [] {
      RefusedExactly(ps[1..], pool, x);
      assert ps == [ps[0]] + ps[1..];
    }
  }

  /** The log lines of a pass that starts at time `clock` against `pool`:
      each process is either dispatched at the running time or refused. */
  function PassLog(ps: seq<Process>, clock: int, pool: int): seq<Event>
  {
    if ps == [] then []
    else Outcome(ps[0], clock, pool) + PassLog(ps[1..], clock + Advance(ps[0], pool), pool)
  }

  /** One iteration of assign_processes, against the pool it finds. */
  lemma AssignOneEffect(s: Snapshot, p: Process)
    ensures AssignOne(s, p).ram == s.ram
    ensures AssignOne(s, p).clock == s.clock + Advance(p, s.ram)
    ensures AssignOne(s, p).log == s.log + Outcome(p, s.clock, s.ram)
  {
  }

  /** A pass leaves the RAM pool as it found it: every admission is paid back. */
  lemma {:induction false} AssignAllKeepsRam(s: Snapshot, ps: seq<Process>)
    ensures AssignAll(s, ps).ram == s.ram
    decreases |ps|
  {
    if ps != [] {
      AssignAllKeepsRam(AssignOne(s, ps[0]), ps[1..]);
      AssignOneEffect(s, ps[0]);
    }
  }

  /** The clock advances by the bursts of exactly the processes that fit in
      the pool as it was on entry. */
  lemma {:induction false} AssignAllClock(s: Snapshot, ps: seq<Process>)
    ensures AssignAll(s, ps).clock == s.clock + AdmittedBurst(ps, s.ram)
    decreases |ps|
  {
    if ps != [] {
      AssignAllClock(AssignOne(s, ps[0]), ps[1..]);
      AssignOneEffect(s, ps[0]);
    }
  }

  /** The log gains, process by process, a dispatch quintuple at the running
      time for each process that fits in the entry pool and the two refusal
      lines for each one that does not. */
  lemma {:induction false} AssignAllLog(s: Snapshot, ps: seq<Process>)
    ensures AssignAll(s, ps).log == s.log + PassLog(ps, s.clock, s.ram)
    decreases |ps|
  {
    if ps != [] {
      AssignAllLog(AssignOne(s, ps[0]), ps[1..]);
      AssignOneEffect(s, ps[0]);
    }
  }

  /** The waiting queue receives exactly the refused processes, in order. */
  lemma {:induction false} AssignAllWaiting(s: Snapshot, ps: seq<Process>)
    ensures AssignAll(s, ps).waiting == EnqueueAll(s.waiting, Refused(ps, s.ram))
    decreases |ps|
  {
    if ps != [] {
      var s1 := AssignOne(s, ps[0]);
      AssignAllWaiting(s1, ps[1..]);
      var rest := Refused(ps[1..], s.ram);
      if RamAvailable(ps[0], s.ram) {
        assert s1.waiting == s.waiting && s1.ram == s.ram;
        assert Refused(ps, s.ram) == rest;
      } else {
        assert s1.waiting == Enqueued(s.waiting, ps[0]) && s1.ram == s.ram;
        assert Refused(ps, s.ram) == [ps[0]] + rest;
        assert ([ps[0]] + rest)[0] == ps[0] && ([ps[0]] + rest)[1..] == rest;
      }
    }
  }

  /** Every assignment line of a pass names the CPU its process belongs on. */
  lemma {:induction false} PassLogCpu(ps: seq<Process>, clock: int, pool: int, cpu: int)
    requires forall x :: x in ps ==> Cpu(x) == cpu
    ensures forall e :: e in PassLog(ps, clock, pool) && e.Assigned? ==> e.cpu == cpu
  {
    if ps != [] {
      PassLogCpu(ps[1..], clock + Advance(ps[0], pool), pool, cpu);
    }
  }

  // The two non-preemptive passes.

  /** fcfs_scheduler: the priority-0 processes in registry order. */
  function FcfsPass(s: Snapshot, reg: seq<Process>): Snapshot
  {
    AssignAll(s, WithKey(reg, Priority, 0))
  }

  /** sjf_scheduler: the priority-1 processes, stably sorted by burst time. */
  function SjfPass(s: Snapshot, reg: seq<Process>): Snapshot
  {
    AssignAll(s, StableSort(WithKey(reg, Priority, 1), Burst))
  }

  /** The FCFS pass admits a priority-0 process exactly when it fits in the
      pool as it was when the pass began, runs it on CPU-1, and leaves the
      pool unchanged. */
  lemma FcfsPassEffect(s: Snapshot, reg: seq<Process>)
    ensures FcfsPass(s, reg).ram == s.ram
    ensures FcfsPass(s, reg).clock == s.clock + AdmittedBurst(WithKey(reg, Priority, 0), s.ram)
    ensures FcfsPass(s, reg).log == s.log + PassLog(WithKey(reg, Priority, 0), s.clock, s.ram)
    ensures FcfsPass(s, reg).waiting == EnqueueAll(s.waiting, Refused(WithKey(reg, Priority, 0), s.ram))
    ensures forall e :: e in PassLog(WithKey(reg, Priority, 0), s.clock, s.ram) && e.Assigned? ==> e.cpu == 1
  {
    var ps := WithKey(reg, Priority, 0);
    AssignAllKeepsRam(s, ps);
    AssignAllClock(s, ps);
    AssignAllLog(s, ps);
    AssignAllWaiting(s, ps);
    PassLogCpu(ps, s.clock, s.ram, 1);
  }

  /** The SJF pass handles the priority-1 processes in an order that is
      sorted by burst time, is a permutation of them and keeps registry order
      among equal bursts; it runs them on CPU-2 against the entry pool. */
  lemma SjfPassEffect(s: Snapshot, reg: seq<Process>)
    ensures Sorted(StableSort(WithKey(reg, Priority, 1), Burst), Burst)
    ensures multiset(StableSort(WithKey(reg, Priority, 1), Burst)) == multiset(WithKey(reg, Priority, 1))
    ensures SameKeyRuns(StableSort(WithKey(reg, Priority, 1), Burst), WithKey(reg, Priority, 1), Burst)
    ensures SjfPass(s, reg).ram == s.ram
    ensures SjfPass(s, reg).clock == s.clock + AdmittedBurst(StableSort(WithKey(reg, Priority, 1), Burst), s.ram)
    ensures SjfPass(s, reg).waiting == EnqueueAll(s.waiting, Refused(StableSort(WithKey(reg, Priority, 1), Burst), s.ram))
    ensures SjfPass(s, reg).log == s.log + PassLog(StableSort(WithKey(reg, Priority, 1), Burst), s.clock, s.ram)
    ensures forall e :: e in SjfPass(s, reg).log[|s.log|..] && e.Assigned? ==> e.cpu == 2
  {
    var ps := WithKey(reg, Priority, 1);
    var sorted := StableSort(ps, Burst);
    StableSortSorted(ps, Burst);
    StableSortPermutes(ps, Burst);
    StableSortKeepsRuns(ps, Burst);
    AssignAllKeepsRam(s, sorted);
    AssignAllClock(s, sorted);
    AssignAllWaiting(s, sorted);
    AssignAllLog(s, sorted);
    forall x | x in sorted ensures Cpu(x) == 2 {
      assert x in multiset(ps);
      assert x in ps;
      assert Key(x, Priority) == 1;
    }
    PassLogCpu(sorted, s.clock, s.ram, 2);
    assert SjfPass(s, reg).log[|s.log|..] == PassLog(sorted, s.clock, s.ram);
  }

  /** A lone priority-0 process with burst 5 that needs 100 of a full pool
      runs from time 0 to time 5 and the pool ends where it began. */
  lemma FcfsSingleProcess(p: Process)
    requires p.priority == 0 && p.burstTime == 5 && p.ramRequired == 100
    ensures FcfsPass(Snapshot(0, TotalRam, [], []), [p]) ==
            Snapshot(5, TotalRam,
                     [Assigned(p.name, 1), Starts(p.name, 0), Completes(p.name, 5),
                      Terminated(p.name), ReleasesRam(p.name)], [])
  {
    var s0 := Snapshot(0, TotalRam, [], []);
    assert WithKey([p], Priority, 0) == [p];
    AssignAllSingle(s0, p);
    assert AssignOne(s0, p) == Dispatch(s0, p, 1);
  }

  /** Of two priority-1 processes with bursts 10 and 3, the shorter is
      dispatched first whatever their registry order: the table that lists
      the longer first is reordered, the other is kept. */
  lemma SjfShorterFirst(a: Process, b: Process, s: Snapshot)
    requires a.priority == 1 && a.burstTime == 10 && a.ramRequired == 50
    requires b.priority == 1 && b.burstTime == 3 && b.ramRequired == 50
    requires s.ram >= 50
    ensures SjfPass(s, [a, b]).log == s.log + DispatchEvents(b, 2, s.clock) + DispatchEvents(a, 2, s.clock + 3)
    ensures SjfPass(s, [b, a]).log == s.log + DispatchEvents(b, 2, s.clock) + DispatchEvents(a, 2, s.clock + 3)
  {
    assert WithKey([b, a], Priority, 1) == [b, a];
    assert StableSort([a], Burst) == [a];
    assert StableSort([b, a], Burst) == Insert(b, [a], Burst) == [b, a];
    assert WithKey([a, b], Priority, 1) == [a, b];
    assert [a, b][1..] == [b] && [b][1..] == [];
    assert StableSort([b], Burst) == [b];
    assert StableSort([a, b], Burst) == Insert(a, [b], Burst) == [b, a];
    AssignAllLog(s, [b, a]);
    assert [b, a][1..] == [a] && [a][1..] == [];
    assert Outcome(b, s.clock, s.ram) == DispatchEvents(b, 2, s.clock);
    assert Outcome(a, s.clock + 3, s.ram) == DispatchEvents(a, 2, s.clock + 3);
    assert PassLog([a], s.clock + 3, s.ram) == DispatchEvents(a, 2, s.clock + 3) + PassLog([], s.clock + 13, s.ram);
    assert PassLog([b, a], s.clock, s.ram) == DispatchEvents(b, 2, s.clock) + PassLog([a], s.clock + 3, s.ram);
  }

  /** While the pool holds at most the machine's total RAM, a process that
      needs more than that total is not assigned: it only produces the two
      refusal lines and joins the waiting queue. (The round-robin passes can
      push the pool above the total; see RoundRobin.OversizedAdmittedLater.) */
  lemma OversizedRefused(s: Snapshot, p: Process)
    requires p.ramRequired > TotalRam && s.ram <= TotalRam
    ensures AssignOne(s, p) == s.(log := s.log + [NotAssigned(p.name), Queued(p.name)],
                                  waiting := Enqueued(s.waiting, p))
  {
  }
}
