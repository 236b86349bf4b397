/** Process records, the scheduler's configuration constants and the events
    the simulator writes to its output log. */
module Processes {

  /** Total RAM of the simulated machine; the pool starts at this value. */
  const TotalRam: int := 2048
  /** Time quanta of the two round-robin passes (priority 2 and priority 3). */
  const QuantumHigh: int := 8
  const QuantumMedium: int := 16

  /** One process record. Every attribute is fixed once the record is read;
      only the intrusive `next` link of the waiting queue is ever rewritten. */
  class Process {
    const name: string
    const arrivalTime: int
    const priority: int
    const burstTime: int
    const ramRequired: int
    var next: Process?

    constructor (name: string, arrivalTime: int, priority: int, burstTime: int, ramRequired: int)
      ensures this.name == name && this.arrivalTime == arrivalTime && this.priority == priority
      ensures this.burstTime == burstTime && this.ramRequired == ramRequired
      ensures next == null
    {
      this.name := name;
      this.arrivalTime := arrivalTime;
      this.priority := priority;
      this.burstTime := burstTime;
      this.ramRequired := ramRequired;
      next := null;
    }
  }

  /** One line of the output log: its kind, the process name and, where the
      line carries one, the CPU number or the time. */
  datatype Event =
    | Queued(name: string)            // "... is queued due to insufficient RAM."
    | NotAssigned(name: string)       // "... could not be assigned due to insufficient RAM."
    | Assigned(name: string, cpu: int)
    | Starts(name: string, time: int)
    | Completes(name: string, time: int)
    | Terminated(name: string)
    | ReleasesRam(name: string)
    | Requeued(name: string)          // "... run until the defined quantum time and is queued again ..."

  /** The attribute a process list is sorted or filtered by. */
  datatype Field = Arrival | Priority | Burst

  function Key(p: Process, f: Field): int
  {
    match f
    case Arrival => p.arrivalTime
    case Priority => p.priority
    case Burst => p.burstTime
  }
}
