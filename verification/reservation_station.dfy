/** One reservation station: the instruction it holds and where each source operand comes from. */
module Stations {
  import opened Wrappers
  import opened Opcodes
  import opened Instructions

  /** A station is identified by its position in the simulator's list of all stations. */
  type StationId = nat

  /** One source operand. The source keeps a value string `Vj` and a tag string `Qj`; a pending
      operand has a tag and no value, a ready one a value and no tag, and an empty one neither. */
  datatype Operand = Empty | Ready(value: int) | Pending(producer: StationId)

  /** The instruction a station holds, and the position of the same instruction in the trace. */
  datatype Held = Held(inst: Instruction, slot: nat)

  datatype Station = Station(
    name: string,
    category: Category,
    busy: bool,
    op: Option<Opcode>,
    j: Operand,
    k: Operand,
    dest: Option<string>,
    held: Option<Held>,
    cycles: int,
    issueCycle: int)

  /** The constructor: free, nothing held, no cycles left. */
  function New(name: string, category: Category): (s: Station)
    ensures !s.busy && s.held.None? && s.name == name && s.category == category
    ensures s.cycles == 0 && s.j == Empty && s.k == Empty && s.dest.None? && s.op.None?
  {
    Station(name, category, false, None, Empty, Empty, None, None, 0, 0)
  }

  /** `isReady`: busy, neither operand waiting on a producer, and no execution cycles left. */
  predicate IsReady(s: Station) {
    s.busy && !s.j.Pending? && !s.k.Pending? && s.cycles == 0
  }

  /** `decrementCycles`: one cycle less, never below zero. */
  function DecrementCycles(s: Station): (r: Station)
    ensures r == s.(cycles := r.cycles)
    ensures s.cycles > 0 ==> r.cycles == s.cycles - 1
    ensures s.cycles <= 0 ==> r == s
  {
    if s.cycles > 0 then s.(cycles := s.cycles - 1) else s
  }

  /** `clear`: the station is freed and forgets its instruction, operands and destination. */
  function Clear(s: Station): (r: Station)
    ensures r == New(s.name, s.category).(issueCycle := -1)
  {
    s.(busy := false, op := None, j := Empty, k := Empty, dest := None, held := None, cycles := 0, issueCycle := -1)
  }

  /** A cleared station is free and never ready, and clearing twice is clearing once. */
  lemma ClearedStationIdle(s: Station)
    ensures !IsReady(Clear(s)) && !Clear(s).busy
    ensures Clear(Clear(s)) == Clear(s)
  {}

  /** Counting down never makes a station wait on a producer, and a station with one cycle left
      becomes ready exactly when its operands are available. */
  lemma DecrementTowardsReady(s: Station)
    requires s.busy && s.cycles == 1
    ensures IsReady(DecrementCycles(s)) <==> !s.j.Pending? && !s.k.Pending?
  {}
}
