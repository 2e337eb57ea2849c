/** The bookkeeping the simulator exposes: the cycle counter, the instruction pointer into the
    program, the trace of issued instructions, the event log and the completion flag. */
module ExecutionStates {
  import opened Instructions

  datatype ExecState = ExecState(
    cycle: int,
    ip: nat,
    trace: seq<Instruction>,
    log: seq<string>,
    complete: bool)

  /** The constructor: cycle 0, pointer 0, empty trace and log, not complete. */
  function Initial(): (e: ExecState)
    ensures e.cycle == 0 && e.ip == 0 && |e.trace| == 0 && |e.log| == 0 && !e.complete
  {
    ExecState(0, 0, [], [], false)
  }

  /** `incrementCycle`: only the cycle moves, by one. */
  function IncrementCycle(e: ExecState): (r: ExecState)
    ensures r.cycle == e.cycle + 1 && r == e.(cycle := r.cycle)
  {
    e.(cycle := e.cycle + 1)
  }

  /** `incrementInstructionPointer`: only the pointer moves, by one. */
  function IncrementIp(e: ExecState): (r: ExecState)
    ensures r.ip == e.ip + 1 && r == e.(ip := r.ip)
  {
    e.(ip := e.ip + 1)
  }

  /** `addToTrace`: the instruction is appended; earlier entries keep their positions. */
  function AddToTrace(e: ExecState, inst: Instruction): (r: ExecState)
    ensures |r.trace| == |e.trace| + 1 && r.trace[..|e.trace|] == e.trace && r.trace[|e.trace|] == inst
    ensures r == e.(trace := r.trace)
  {
    e.(trace := e.trace + [inst])
  }

  /** `clearTrace`: clears the trace and, with it, the log. */
  function ClearTrace(e: ExecState): (r: ExecState)
    ensures |r.trace| == 0 && |r.log| == 0
    ensures r.cycle == e.cycle && r.ip == e.ip && r.complete == e.complete
  {
    e.(trace := [], log := [])
  }

  /** `addLogMessage`: the message is appended to the log. */
  function AddLogMessage(e: ExecState, message: string): (r: ExecState)
    ensures |r.log| == |e.log| + 1 && r.log[..|e.log|] == e.log && r.log[|e.log|] == message
    ensures r == e.(log := r.log)
  {
    e.(log := e.log + [message])
  }

  /** Updating the trace entry at `slot` (the object a station also holds); nothing happens
      for a slot past the end. */
  function WriteSlot(e: ExecState, slot: nat, inst: Instruction): (r: ExecState)
    ensures |r.trace| == |e.trace| && r == e.(trace := r.trace)
    ensures forall k :: 0 <= k < |e.trace| ==> r.trace[k] == if k == slot then inst else e.trace[k]
  {
    if slot < |e.trace| then e.(trace := e.trace[slot := inst]) else e
  }

  /** Writing a slot depends only on the trace written into. */
  lemma WriteSlotTrace(e1: ExecState, e2: ExecState, slot: nat, inst: Instruction)
    requires e1.trace == e2.trace
    ensures WriteSlot(e1, slot, inst).trace == WriteSlot(e2, slot, inst).trace
  {
  }
}
