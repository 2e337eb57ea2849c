/** The simulator's whole state and the small updates every stage is built from. */
module SimStates {
  import opened Wrappers
  import opened Opcodes
  import opened Instructions
  import opened Stations
  import opened StationPools
  import opened RegisterFiles
  import opened Caches
  import opened LoadStoreBuffers
  import opened BranchUnits
  import opened ExecutionStates

  const DEFAULT_CACHE_SIZE: int := 1024
  const DEFAULT_BLOCK_SIZE: int := 8
  const DEFAULT_CACHE_HIT_LATENCY: int := 1
  const DEFAULT_CACHE_MISS_PENALTY: int := 10

  /** What makes a step of the source throw instead of completing. */
  datatype Fault =
    | TrackingSetsUnallocated   // a step before the first `reset`: the tracking sets are still null
    | MissingRegisterName       // a null register name reaches the register file
    | NegativeAddress           // a cache access at a negative address (the refill copies from below index zero)
    | NoCacheBlocks             // a cache access on a cache without blocks: `getCacheIndex` divides by zero
    | CacheConstruction(cause: CacheFault)  // the cache constructor throws
    | MissingBufferEntry        // no load/store buffer entry could be found or added for an access
    | MissingOperand            // write-back reads an operand value that was never set

  /** `groups` maps an execution-end cycle to the stations that finished together in it;
      `incomplete` holds the members of such groups that have not yet all written back;
      `waiting` holds the stations that received an operand from such a member and must not
      start executing until the group is complete. `setsAllocated` is false while the source
      still holds null references for its per-cycle tracking sets. */
  datatype SimState = SimState(
    program: seq<Instruction>,
    pool: Pool,
    regs: RegisterFile,
    cache: Cache,
    lsb: Buffer,
    branchUnit: BranchUnit,
    exec: ExecState,
    branchStall: bool,
    groups: map<int, set<StationId>>,
    incomplete: set<StationId>,
    waiting: set<StationId>,
    setsAllocated: bool)

  predicate Consistent(s: SimState) { Caches.Valid(s.cache) }

  /** What every stage except issue keeps: the program, the clock, the station list's length
      and latencies, the trace's length and a well-formed cache. */
  predicate Frames(s: SimState, r: SimState) {
    && Consistent(r)
    && r.program == s.program
    && r.exec.cycle == s.exec.cycle
    && |r.exec.trace| == |s.exec.trace|
    && |r.pool.stations| == |s.pool.stations|
    && r.pool.latencies == s.pool.latencies
    && r.setsAllocated == s.setsAllocated
  }

  function StationAt(s: SimState, i: StationId): Station
    requires i < |s.pool.stations|
  {
    s.pool.stations[i]
  }

  /** Replaces station `i`. */
  function SetStation(s: SimState, i: StationId, st: Station): (r: SimState)
    requires i < |s.pool.stations|
    ensures r.pool.stations == s.pool.stations[i := st]
    ensures r == s.(pool := r.pool) && r.pool.latencies == s.pool.latencies
  {
    s.(pool := s.pool.(stations := s.pool.stations[i := st]))
  }

  /** Updates the instruction station `i` holds. The source's station and trace share one
      instruction object, so the trace entry at the held slot changes with it. */
  function SetInst(s: SimState, i: StationId, inst: Instruction): (r: SimState)
    requires i < |s.pool.stations| && s.pool.stations[i].held.Some?
    ensures Consistent(s) ==> Frames(s, r)
    ensures r.pool.stations == s.pool.stations[i := s.pool.stations[i].(held := Some(Held(inst, s.pool.stations[i].held.value.slot)))]
    ensures r.exec == WriteSlot(s.exec, s.pool.stations[i].held.value.slot, inst)
    ensures r == s.(pool := r.pool, exec := r.exec)
  {
    var st := s.pool.stations[i];
    var slot := st.held.value.slot;
    SetStation(s, i, st.(held := Some(Held(inst, slot)))).(exec := WriteSlot(s.exec, slot, inst))
  }

  /** `getLoadSize`: eight bytes for L.D and LD, four for L.S and LW, none otherwise. */
  function LoadSize(op: Opcode): (r: nat)
    ensures r <= 8
  {
    match op
    case L_D | LD => 8
    case L_S | LW => 4
    case _ => 0
  }

  /** `getStoreSize`: eight bytes for S.D and SD, four for S.S and SW, none otherwise. */
  function StoreSize(op: Opcode): (r: nat)
    ensures r <= 8
  {
    match op
    case S_D | SD => 8
    case S_S | SW => 4
    case _ => 0
  }

  /** The simulator's two size tables and the buffer's agree on every memory opcode, and give
      nothing to an opcode of the other kind. */
  lemma AccessSizesAgree(op: Opcode)
    ensures CategoryOf(op) == Load ==> LoadSize(op) == AccessSize(op) && LoadSize(op) > 0 && StoreSize(op) == 0
    ensures CategoryOf(op) == Store ==> StoreSize(op) == AccessSize(op) && StoreSize(op) > 0 && LoadSize(op) == 0
    ensures CategoryOf(op) != Load && CategoryOf(op) != Store ==> LoadSize(op) == 0 && StoreSize(op) == 0
  {}
}
