/** The simulator: construction, program loading, reset, and the per-cycle `step` that runs
    execute, issue, write-back, the count-down, the execution-end check and the completion check
    in that order. */
module Simulator {
  import opened Wrappers
  import opened JavaInt
  import opened Opcodes
  import opened Instructions
  import opened Stations
  import StationPools
  import RegisterFiles
  import Caches
  import LoadStoreBuffers
  import BranchUnits
  import ExecutionStates
  import ByteCodec
  import opened SimStates
  import ExecuteStage
  import IssueStage
  import WriteBackStage

  /** Whether station `i` is executing: busy, started and not yet ended. */
  predicate Executing(st: Station) {
    st.busy && st.held.Some? && st.held.value.inst.execStart != -1 && st.held.value.inst.execEnd == -1
  }

  /** Execution of station `i` ends now; a load takes the value its buffer entry read from the
      cache, decoded little-endian, as its result operand. */
  function MarkEnded(s: SimState, i: StationId): (r: SimState)
    requires Consistent(s) && i < |s.pool.stations| && s.pool.stations[i].held.Some?
    ensures Frames(s, r) && r.exec.ip == s.exec.ip && r.cache == s.cache && r.lsb == s.lsb && r.regs == s.regs
    ensures forall k :: 0 <= k < |s.pool.stations| && k != i ==> r.pool.stations[k] == s.pool.stations[k]
    ensures var h := s.pool.stations[i].held.value;
      && r.pool.stations[i].held == Some(Held(h.inst.(execEnd := s.exec.cycle), h.slot))
      && r.exec == ExecutionStates.WriteSlot(s.exec, h.slot, h.inst.(execEnd := s.exec.cycle))
      && r.pool.stations[i].busy == s.pool.stations[i].busy
      && r.pool.stations[i].cycles == s.pool.stations[i].cycles
    ensures var op := s.pool.stations[i].held.value.inst.op;
      var e := LoadStoreBuffers.EntryOf(s.lsb, i);
      r.pool.stations[i].j ==
        if CategoryOf(op) == Load && e.Some? && s.lsb.entries[e.value].loadData.Some?
        then Ready(ByteCodec.Decode(s.lsb.entries[e.value].loadData.value, LoadSize(op)))
        else s.pool.stations[i].j
  {
    var h := s.pool.stations[i].held.value;
    var s1 := SetInst(s, i, h.inst.(execEnd := s.exec.cycle));
    if CategoryOf(h.inst.op) == Load then
      match LoadStoreBuffers.EntryOf(s.lsb, i)
      case Some(e) =>
        (match s.lsb.entries[e].loadData
         case Some(data) => SetStation(s1, i, s1.pool.stations[i].(j := Ready(ByteCodec.Decode(data, LoadSize(h.inst.op)))))
         case None => s1)
      case None => s1
    else s1
  }

  /** The store a station performs when its execution ends: the buffer entry's value, encoded
      little-endian in the store's width, goes into the cache at the entry's address. */
  function PerformStore(s: SimState, e: nat, size: nat): (r: Result<SimState, Fault>)
    requires Consistent(s) && e < |s.lsb.entries|
    ensures r.Failure? <==> s.cache.numBlocks == 0 || s.lsb.entries[e].address < 0
    ensures r.Failure? ==> r.error == if s.cache.numBlocks == 0 then NoCacheBlocks else NegativeAddress
    ensures r.Success? ==>
      && Consistent(r.value)
      && r.value == s.(cache := Caches.Store(s.cache, s.lsb.entries[e].address, ByteCodec.Encode(s.lsb.entries[e].value, size)).0)
  {
    var entry := s.lsb.entries[e];
    if s.cache.numBlocks == 0 then Failure(NoCacheBlocks)
    else if entry.address < 0 then Failure(NegativeAddress)
    else Success(s.(cache := Caches.Store(s.cache, entry.address, ByteCodec.Encode(entry.value, size)).0))
  }

  /** One station's turn in `checkExecutionEnd`. A store ends once both it and its buffer entry
      have counted down, and writes the cache then; a store without an entry, and every other
      station, ends once it has counted down. */
  function CheckStation(s: SimState, i: StationId): (r: Result<SimState, Fault>)
    requires Consistent(s) && i < |s.pool.stations|
    ensures r.Success? ==> Frames(s, r.value) && r.value.exec.ip == s.exec.ip && r.value.lsb == s.lsb && r.value.regs == s.regs
    ensures r.Success? ==> forall k :: 0 <= k < |s.pool.stations| && k != i ==> r.value.pool.stations[k] == s.pool.stations[k]
    ensures !Executing(s.pool.stations[i]) || s.pool.stations[i].cycles != 0 ==> r == Success(s)
    ensures r.Failure? ==> r.error in {NoCacheBlocks, NegativeAddress}
  {
    var st := s.pool.stations[i];
    if !Executing(st) || st.cycles != 0 then Success(s)
    else
      var op := st.held.value.inst.op;
      if CategoryOf(op) == Store then
        match LoadStoreBuffers.EntryOf(s.lsb, i)
        case Some(e) =>
          if s.lsb.entries[e].cycles != 0 then Success(s)
          else
            var s1 :- PerformStore(s, e, StoreSize(op));
            Success(MarkEnded(s1, i))
        case None => Success(MarkEnded(s, i))
      else Success(MarkEnded(s, i))
  }

  function CheckFrom(s: SimState, i: nat): (r: Result<SimState, Fault>)
    requires Consistent(s) && i <= |s.pool.stations|
    ensures r.Success? ==> Frames(s, r.value) && r.value.exec.ip == s.exec.ip && r.value.lsb == s.lsb && r.value.regs == s.regs
    ensures r.Success? ==> forall k :: 0 <= k < i ==> r.value.pool.stations[k] == s.pool.stations[k]
    decreases |s.pool.stations| - i
  {
    if i == |s.pool.stations| then Success(s)
    else
      var s1 :- CheckStation(s, i);
      CheckFrom(s1, i + 1)
  }

  /** `checkExecutionEnd`, over the station list in order. */
  function CheckExecutionEnd(s: SimState): (r: Result<SimState, Fault>)
    requires Consistent(s)
    ensures r.Success? ==> Frames(s, r.value) && r.value.exec.ip == s.exec.ip && r.value.lsb == s.lsb && r.value.regs == s.regs
  {
    CheckFrom(s, 0)
  }

  /** Every trace entry from `i` on is completed, checked in order as the source's loop does. */
  function AllCompletedFrom(trace: seq<Instruction>, i: nat): (r: bool)
    requires i <= |trace|
    ensures r <==> forall k :: i <= k < |trace| ==> trace[k].completed
    decreases |trace| - i
  {
    if i == |trace| then true
    else if !trace[i].completed then false
    else AllCompletedFrom(trace, i + 1)
  }

  /** Every station from `i` on is free. */
  function AllFreeFrom(stations: seq<Station>, i: nat): (r: bool)
    requires i <= |stations|
    ensures r <==> forall k :: i <= k < |stations| ==> !stations[k].busy
    decreases |stations| - i
  {
    if i == |stations| then true
    else if stations[i].busy then false
    else AllFreeFrom(stations, i + 1)
  }

  /** The condition `checkCompletion` tests: the whole program has issued, every issued
      instruction has completed, every station is free and the buffer is empty. */
  predicate Finished(s: SimState) {
    && s.exec.ip >= |s.program|
    && (forall k :: 0 <= k < |s.exec.trace| ==> s.exec.trace[k].completed)
    && (forall k :: 0 <= k < |s.pool.stations| ==> !s.pool.stations[k].busy)
    && LoadStoreBuffers.IsEmpty(s.lsb)
  }

  /** `checkCompletion`: the completion flag is set exactly when the machine has finished, and
      nothing else changes. */
  function CheckCompletion(s: SimState): (r: SimState)
    ensures r == s.(exec := s.exec.(complete := r.exec.complete))
    ensures r.exec.complete <==> Finished(s)
  {
    var done :=
      s.exec.ip >= |s.program|
      && AllCompletedFrom(s.exec.trace, 0)
      && AllFreeFrom(s.pool.stations, 0)
      && LoadStoreBuffers.IsEmpty(s.lsb);
    s.(exec := s.exec.(complete := done))
  }

  /** The count-down of the stations and of the buffer entries. */
  function TickAll(s: SimState): (r: SimState)
    ensures Consistent(s) ==> Frames(s, r)
    ensures r == s.(pool := StationPools.Tick(s.pool), lsb := LoadStoreBuffers.Tick(s.lsb))
  {
    s.(pool := StationPools.Tick(s.pool), lsb := LoadStoreBuffers.Tick(s.lsb))
  }

  /** The issue stage, skipped while a branch is unresolved. */
  function IssueUnlessStalled(s: SimState): (r: Result<SimState, Fault>)
    requires Consistent(s)
    ensures s.branchStall ==> r == Success(s)
    ensures r.Success? ==> Consistent(r.value) && r.value.program == s.program && r.value.exec.cycle == s.exec.cycle
    ensures r.Success? ==> r.value.setsAllocated == s.setsAllocated
    ensures r.Success? ==> |r.value.pool.stations| == |s.pool.stations| && r.value.pool.latencies == s.pool.latencies
    ensures r.Success? ==> |s.exec.trace| <= |r.value.exec.trace| <= |s.exec.trace| + 1
  {
    if s.branchStall then Success(s) else IssueStage.Issue(s)
  }

  /** The stages of one cycle after the clock has advanced: execute, issue unless stalled,
      write-back, the count-down and the execution-end check. Each of them keeps the program,
      the clock, the station configuration and the trace's length, except that issue appends at
      most one trace entry. */
  function Advance(s: SimState): (r: Result<SimState, Fault>)
    requires Consistent(s)
    ensures r.Success? ==> Consistent(r.value) && r.value.program == s.program && r.value.exec.cycle == s.exec.cycle
    ensures r.Success? ==> |r.value.pool.stations| == |s.pool.stations| && r.value.pool.latencies == s.pool.latencies
    ensures r.Success? ==> r.value.setsAllocated == s.setsAllocated
    ensures r.Success? ==> |s.exec.trace| <= |r.value.exec.trace| <= |s.exec.trace| + 1
    ensures r.Success? && s.branchStall ==> |r.value.exec.trace| == |s.exec.trace|
  {
    var s1 :- ExecuteStage.Execute(s);
    var s2 :- IssueUnlessStalled(s1);
    var s3 :- WriteBackStage.WriteBack(s2);
    CheckExecutionEnd(TickAll(s3))
  }

  /** `step`. Nothing happens once the run is complete. Otherwise the clock advances by one and
      the stages run in order, and the run is marked complete exactly when the machine has
      finished. A fault is the exception the source would throw part-way through. */
  function Step(s: SimState): (r: Result<SimState, Fault>)
    requires Consistent(s)
    ensures s.exec.complete ==> r == Success(s)
    ensures !s.exec.complete && !s.setsAllocated ==> r == Failure(TrackingSetsUnallocated)
    ensures r.Success? ==> Consistent(r.value) && r.value.program == s.program
    ensures r.Success? ==> |r.value.pool.stations| == |s.pool.stations| && r.value.pool.latencies == s.pool.latencies
    ensures r.Success? && !s.exec.complete ==> r.value.exec.cycle == s.exec.cycle + 1
    ensures r.Success? && !s.exec.complete ==> (r.value.exec.complete <==> Finished(r.value))
    ensures r.Success? ==> |s.exec.trace| <= |r.value.exec.trace| <= |s.exec.trace| + 1
    ensures r.Success? && s.branchStall ==> |r.value.exec.trace| == |s.exec.trace|
  {
    if s.exec.complete then Success(s)
    else if !s.setsAllocated then Failure(TrackingSetsUnallocated)
    else
      var s1 :- Advance(s.(exec := ExecutionStates.IncrementCycle(s.exec)));
      Success(CheckCompletion(s1))
  }

  /** The program as `reset` leaves it: the same instructions with their stamps cleared. */
  function Unstamp(program: seq<Instruction>): (r: seq<Instruction>)
    ensures |r| == |program|
    ensures forall k :: 0 <= k < |r| ==> SameText(r[k], program[k]) && Unstamped(r[k])
  {
    seq(|program|, k requires 0 <= k < |program| => Copy(program[k]))
  }

  /** `reset`: every component back to its initial state except memory, the station
      configuration and the latencies; the clock and pointer at zero, the trace and log empty,
      no groups, and the tracking sets allocated. */
  function Reset(s: SimState): (r: SimState)
    requires Consistent(s)
    ensures Consistent(r) && r.setsAllocated && !r.exec.complete && !r.branchStall
    ensures r.exec.cycle == 0 && r.exec.ip == 0 && |r.exec.trace| == 0 && |r.exec.log| == 0
    ensures |r.program| == |s.program| && forall k :: 0 <= k < |r.program| ==> SameText(r.program[k], s.program[k]) && Unstamped(r.program[k])
    ensures |r.pool.stations| == |s.pool.stations| && forall k :: 0 <= k < |r.pool.stations| ==> !r.pool.stations[k].busy
    ensures r.cache.memory == s.cache.memory && LoadStoreBuffers.IsEmpty(r.lsb)
    ensures r.groups == map[] && r.incomplete == {} && r.waiting == {}
    ensures !BranchUnits.IsProcessing(r.branchUnit)
  {
    SimState(
      Unstamp(s.program),
      StationPools.Reset(s.pool),
      RegisterFiles.Reset(s.regs),
      Caches.Reset(s.cache),
      LoadStoreBuffers.Reset(s.lsb),
      BranchUnits.Reset(),
      ExecutionStates.ClearTrace(s.exec.(cycle := 0, ip := 0, complete := false)),
      false,
      map[], {}, {}, true)
  }

  /** `loadInstructions`: the program is replaced and the simulator reset. */
  function LoadInstructions(s: SimState, program: seq<Instruction>): (r: SimState)
    requires Consistent(s)
    ensures r == Reset(s.(program := program))
    ensures |r.program| == |program| && r.exec.ip == 0 && r.exec.cycle == 0
  {
    Reset(s.(program := program))
  }

  /** The constructor as written: every component fresh, but the two per-cycle tracking sets
      are not allocated until the first `reset`. It throws exactly when the cache's does; a
      cache smaller than one block is built with no blocks at all. */
  function New(cacheSize: int, blockSize: int): (r: Result<SimState, Fault>)
    ensures Caches.New(cacheSize, blockSize, DEFAULT_CACHE_HIT_LATENCY, DEFAULT_CACHE_MISS_PENALTY).Failure?
            <==> r.Failure?
    ensures r.Failure? ==>
      r.error == CacheConstruction(Caches.New(cacheSize, blockSize, DEFAULT_CACHE_HIT_LATENCY, DEFAULT_CACHE_MISS_PENALTY).error)
    ensures r.Success? ==>
      && Consistent(r.value) && !r.value.setsAllocated && !r.value.exec.complete
      && r.value.cache == Caches.New(cacheSize, blockSize, DEFAULT_CACHE_HIT_LATENCY, DEFAULT_CACHE_MISS_PENALTY).value
  {
    match Caches.New(cacheSize, blockSize, DEFAULT_CACHE_HIT_LATENCY, DEFAULT_CACHE_MISS_PENALTY)
    case Failure(f) => Failure(CacheConstruction(f))
    case Success(cache) =>
      Success(SimState([], StationPools.Initial(), RegisterFiles.Initial(), cache,
                       LoadStoreBuffers.New(LoadStoreBuffers.LOAD_STORE_BUFFER_SIZE), BranchUnits.Reset(),
                       ExecutionStates.Initial(), false, map[], {}, {}, false))
  }

  /** The constructor as intended: the same fresh components with every tracking set
      allocated, so that a step is possible at once. */
  function Create(cacheSize: int, blockSize: int): (r: Result<SimState, Fault>)
    ensures r.Failure? <==> New(cacheSize, blockSize).Failure?
    ensures r.Failure? ==> r.error == New(cacheSize, blockSize).error
    ensures r.Success? ==>
      && Consistent(r.value) && r.value.setsAllocated && !r.value.exec.complete
      && r.value == New(cacheSize, blockSize).value.(setsAllocated := true)
      && Idle(r.value) && |r.value.program| == 0 && r.value.exec.cycle == 0 && |r.value.exec.trace| == 0
  {
    var s :- New(cacheSize, blockSize);
    Success(s.(setsAllocated := true))
  }

  /** Nothing is in flight: every station is free and the buffer is empty. */
  predicate Idle(s: SimState) {
    && (forall k :: 0 <= k < |s.pool.stations| ==> !s.pool.stations[k].busy)
    && LoadStoreBuffers.IsEmpty(s.lsb)
  }

  /** A stage pass over free stations changes nothing. */
  lemma {:induction false} ExecuteIdle(s: SimState, i: nat)
    requires Consistent(s) && i <= |s.pool.stations| && Idle(s)
    ensures ExecuteStage.ExecuteFrom(s, i) == Success(s)
    decreases |s.pool.stations| - i
  {
    if i < |s.pool.stations| {
      assert ExecuteStage.ExecuteStation(s, i) == Success(s);
      ExecuteIdle(s, i + 1);
    }
  }

  lemma {:induction false} CheckIdle(s: SimState, i: nat)
    requires Consistent(s) && i <= |s.pool.stations| && Idle(s)
    ensures CheckFrom(s, i) == Success(s)
    decreases |s.pool.stations| - i
  {
    if i < |s.pool.stations| {
      assert CheckStation(s, i) == Success(s);
      CheckIdle(s, i + 1);
    }
  }

  /** A machine with nothing in flight, the whole program issued and every issued instruction
      completed finishes in one step: the clock advances and the completion flag is set. */
  lemma IdleStepCompletes(s: SimState)
    requires Consistent(s) && s.setsAllocated && !s.exec.complete && Idle(s)
    requires s.exec.ip >= |s.program| && forall k :: 0 <= k < |s.exec.trace| ==> s.exec.trace[k].completed
    ensures Step(s).Success? && Step(s).value.exec.complete && Step(s).value.exec.cycle == s.exec.cycle + 1
  {
    var s0 := s.(exec := ExecutionStates.IncrementCycle(s.exec));
    ExecuteIdle(s0, 0);
    assert IssueUnlessStalled(s0) == Success(s0);
    assert IssueStage.Issue(s0) == Success(s0);
    var s3 := WriteBackStage.RecordGroups(s0);
    assert WriteBackStage.PickRetiree(s0.pool.stations).None?;
    assert WriteBackStage.WriteBack(s0) == Success(s3);
    var s4 := TickAll(s3);
    assert Idle(s4);
    CheckIdle(s4, 0);
    assert Advance(s0) == Success(s4);
    assert Finished(s4);
  }

  /** As written, the first step of a freshly constructed simulator throws: the tracking sets
      it clears are still unallocated. */
  lemma StepBeforeLoadFails(cacheSize: int, blockSize: int)
    requires New(cacheSize, blockSize).Success?
    ensures Step(New(cacheSize, blockSize).value) == Failure(TrackingSetsUnallocated)
  {
  }

  /** With the sets allocated by the constructor, the first step of a fresh simulator succeeds
      and, the program being empty, completes the run in cycle 1. */
  lemma CreateThenStepCompletes(cacheSize: int, blockSize: int)
    requires Create(cacheSize, blockSize).Success?
    ensures Step(Create(cacheSize, blockSize).value).Success?
    ensures Step(Create(cacheSize, blockSize).value).value.exec.complete
    ensures Step(Create(cacheSize, blockSize).value).value.exec.cycle == 1
  {
    IdleStepCompletes(Create(cacheSize, blockSize).value);
  }

  /** A cache smaller than one block does not stop construction: the simulator is built with a
      cache of no blocks, and only its first cache access throws. */
  lemma SmallCacheConstructs(cacheSize: int, blockSize: int)
    requires 0 <= cacheSize < blockSize
    ensures Create(cacheSize, blockSize).Success?
    ensures Create(cacheSize, blockSize).value.cache.numBlocks == 0
    ensures !Caches.Indexable(Create(cacheSize, blockSize).value.cache)
  {
    QuotPositive(cacheSize, blockSize);
    assert Quot(cacheSize, blockSize) >= 0;
  }
}
