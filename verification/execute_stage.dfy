/** The execute stage: each busy station whose operands are available starts executing once;
    loads and stores first pass the buffer's address-clash check and touch the cache. */
module ExecuteStage {
  import opened Wrappers
  import opened JavaInt
  import opened Opcodes
  import opened Instructions
  import opened Stations
  import opened StationPools
  import opened Caches
  import opened LoadStoreBuffers
  import opened SimStates

  /** Whether a station's instruction has begun executing. */
  predicate Started(st: Station) {
    st.held.Some? && st.held.value.inst.execStart != -1
  }

  /** What the stage demands before station `i` starts: it holds an instruction that has not
      started, and the operands its kind reads are available: the address for a load, the
      value and the address for a store, and otherwise both operands, with no unfinished
      simultaneous-completion group the station waits on. */
  predicate MayStart(s: SimState, i: StationId)
    requires i < |s.pool.stations|
  {
    var st := s.pool.stations[i];
    && st.busy && st.held.Some? && st.held.value.inst.execStart == -1
    && match CategoryOf(st.held.value.inst.op)
       case Load => st.j.Ready?
       case Store => st.j.Ready? && st.k.Ready?
       case _ => !st.j.Pending? && !st.k.Pending? && !(i in s.waiting && s.incomplete != {})
  }

  /** How one turn of the stage may change station `i` into `st'`: a station that has started
      is left as it is, and a station that changes was allowed to start and is now stamped
      with the current cycle. */
  predicate StartRule(s: SimState, i: StationId, st': Station)
    requires i < |s.pool.stations|
  {
    var st := s.pool.stations[i];
    && (Started(st) ==> st' == st)
    && (st' != st ==>
          && MayStart(s, i)
          && st'.held == Some(Held(st.held.value.inst.(execStart := s.exec.cycle), st.held.value.slot)))
  }

  /** Execution of the instruction held by station `i` begins now: the instruction is stamped
      with the current cycle and the station gets `cycles` cycles to count down. */
  function Start(s: SimState, i: StationId, cycles: int): (r: SimState)
    requires Consistent(s) && i < |s.pool.stations| && s.pool.stations[i].held.Some?
    ensures Frames(s, r)
    ensures r.pool.stations[i].cycles == cycles && r.pool.stations[i].busy == s.pool.stations[i].busy
    ensures r.pool.stations[i].held == Some(Held(s.pool.stations[i].held.value.inst.(execStart := s.exec.cycle), s.pool.stations[i].held.value.slot))
    ensures forall k :: 0 <= k < |s.pool.stations| && k != i ==> r.pool.stations[k] == s.pool.stations[k]
    ensures r == s.(pool := r.pool, exec := r.exec)
    ensures r.exec.ip == s.exec.ip
  {
    var h := s.pool.stations[i].held.value;
    var s1 := SetInst(s, i, h.inst.(execStart := s.exec.cycle));
    SetStation(s1, i, s1.pool.stations[i].(cycles := cycles))
  }

  /** An arithmetic or branch station starts once neither operand waits on a producer, unless
      it received an operand from a member of a simultaneous-completion group whose other
      members have not all written back yet. Nothing happens once it has started. */
  function ExecuteAlu(s: SimState, i: StationId): (r: SimState)
    requires Consistent(s) && i < |s.pool.stations| && s.pool.stations[i].held.Some?
    ensures Frames(s, r) && r == s.(pool := r.pool, exec := r.exec) && r.exec.ip == s.exec.ip
    ensures forall k :: 0 <= k < |s.pool.stations| && k != i ==> r.pool.stations[k] == s.pool.stations[k]
    ensures if && !s.pool.stations[i].j.Pending? && !s.pool.stations[i].k.Pending?
               && !(i in s.waiting && s.incomplete != {})
               && s.pool.stations[i].held.value.inst.execStart == -1
            then r == Start(s, i, Latency(s.pool, s.pool.stations[i].held.value.inst.op))
            else r == s
  {
    var st := s.pool.stations[i];
    var inst := st.held.value.inst;
    if st.j.Pending? || st.k.Pending? then s
    else if i in s.waiting && s.incomplete != {} then s
    else if inst.execStart != -1 then s
    else
      Start(s, i, Latency(s.pool, inst.op))
  }

  /** `executeLoad`. A load whose address is known records it in its buffer entry (adding an
      entry if it has none) and, unless an earlier access clashes, starts once: the cache is
      read now and the station and entry count down the load latency plus the cache's. */
  function ExecuteLoad(s: SimState, i: StationId): (r: Result<SimState, Fault>)
    requires Consistent(s) && i < |s.pool.stations| && s.pool.stations[i].held.Some?
    ensures r.Success? ==> Frames(s, r.value) && r.value.regs == s.regs
    ensures r.Success? ==> r.value.exec.ip == s.exec.ip && r.value.branchStall == s.branchStall
    ensures r.Success? ==> forall k :: 0 <= k < |s.pool.stations| && k != i ==> r.value.pool.stations[k] == s.pool.stations[k]
    ensures r.Success? ==> r.value.waiting == s.waiting && r.value.incomplete == s.incomplete
    ensures s.pool.stations[i].j.Pending? || s.pool.stations[i].j.Empty? || s.pool.stations[i].held.value.inst.execEnd != -1 ==> r == Success(s)
    ensures r.Success? && r.value.pool.stations[i] != s.pool.stations[i] ==>
      var h := s.pool.stations[i].held.value;
      && s.pool.stations[i].j.Ready? && h.inst.execStart == -1
      && r.value.pool.stations[i].held == Some(Held(h.inst.(execStart := s.exec.cycle), h.slot))
    ensures r.Failure? ==> r.error in {MissingBufferEntry, NoCacheBlocks, NegativeAddress}
  {
    var st := s.pool.stations[i];
    var inst := st.held.value.inst;
    if !st.j.Ready? || inst.execEnd != -1 then Success(s)
    else
      var address := st.j.value;
      var (lsb1, e1) := UpdateLoadAddress(s.lsb, i, address);
      var (lsb2, e2) := if e1.Some? then (lsb1, e1) else AddLoad(lsb1, inst, address, i);
      if e2.None? then Failure(MissingBufferEntry)
      else
        var e := e2.value;
        var size := LoadSize(inst.op);
        if HasAddressClash(lsb2, address, size, e, LoadAccess) then Success(s.(lsb := lsb2))
        else if inst.execStart != -1 then Success(s.(lsb := lsb2))
        else if s.cache.numBlocks == 0 then Failure(NoCacheBlocks)
        else if address < 0 then Failure(NegativeAddress)
        else Success(StartLoad(s, i, lsb2, e, address, size))
  }

  /** A load that starts: the cache is read now, and the station and its buffer entry `e` count
      down the load latency plus the cache's, the entry keeping the bytes read. */
  function StartLoad(s: SimState, i: StationId, lsb: Buffer, e: nat, address: int, size: int): (r: SimState)
    requires Consistent(s) && i < |s.pool.stations| && s.pool.stations[i].held.Some?
    requires Indexable(s.cache) && e < |lsb.entries| && address >= 0 && size >= 0
    ensures Frames(s, r) && r == s.(pool := r.pool, exec := r.exec, lsb := r.lsb, cache := r.cache) && r.exec.ip == s.exec.ip
    ensures r.pool.stations[i].held == Some(Held(s.pool.stations[i].held.value.inst.(execStart := s.exec.cycle), s.pool.stations[i].held.value.slot))
    ensures forall k :: 0 <= k < |s.pool.stations| && k != i ==> r.pool.stations[k] == s.pool.stations[k]
    ensures r.lsb == lsb.(entries := r.lsb.entries) && |r.lsb.entries| == |lsb.entries|
    ensures forall k :: 0 <= k < |lsb.entries| && k != e ==> r.lsb.entries[k] == lsb.entries[k]
    ensures var (cache', result) := Caches.Load(s.cache, address, size);
            && r.cache == cache'
            && r.lsb.entries[e].loadData == result.data
            && r.lsb.entries[e].cycles == r.pool.stations[i].cycles == Latency(s.pool, s.pool.stations[i].held.value.inst.op) + result.latency
  {
    var (cache', result) := Caches.Load(s.cache, address, size);
    var total := Latency(s.pool, s.pool.stations[i].held.value.inst.op) + result.latency;
    var lsb3 := lsb.(entries := lsb.entries[e := lsb.entries[e].(cycles := total, loadData := result.data)]);
    Start(s, i, total).(lsb := lsb3, cache := cache')
  }

  /** `executeStore`. A store whose value and address are both known records them in its buffer
      entry and, unless an earlier access clashes, starts once: the cache is only probed for the
      latency, and the write itself happens when execution ends. */
  function ExecuteStore(s: SimState, i: StationId): (r: Result<SimState, Fault>)
    requires Consistent(s) && i < |s.pool.stations| && s.pool.stations[i].held.Some?
    ensures r.Success? ==> Frames(s, r.value) && r.value.regs == s.regs && r.value.cache == s.cache
    ensures r.Success? ==> r.value.exec.ip == s.exec.ip && r.value.branchStall == s.branchStall
    ensures r.Success? ==> forall k :: 0 <= k < |s.pool.stations| && k != i ==> r.value.pool.stations[k] == s.pool.stations[k]
    ensures r.Success? ==> r.value.waiting == s.waiting && r.value.incomplete == s.incomplete
    ensures !s.pool.stations[i].j.Ready? || !s.pool.stations[i].k.Ready? ==> r == Success(s)
    ensures r.Success? && r.value.pool.stations[i] != s.pool.stations[i] ==>
      var h := s.pool.stations[i].held.value;
      && s.pool.stations[i].j.Ready? && s.pool.stations[i].k.Ready? && h.inst.execStart == -1
      && r.value.pool.stations[i].held == Some(Held(h.inst.(execStart := s.exec.cycle), h.slot))
    ensures r.Failure? ==> r.error in {MissingBufferEntry, NoCacheBlocks}
  {
    var st := s.pool.stations[i];
    var inst := st.held.value.inst;
    if !st.j.Ready? || !st.k.Ready? then Success(s)
    else
      var address := st.k.value;
      var value := st.j.value;
      var (lsb1, e1) := UpdateStoreAddressAndValue(s.lsb, i, address, value);
      var (lsb2, e2) := if e1.Some? then (lsb1, e1) else AddStore(lsb1, inst, address, i, value);
      if e2.None? then Failure(MissingBufferEntry)
      else
        var e := e2.value;
        var size := StoreSize(inst.op);
        if HasAddressClash(lsb2, address, size, e, StoreAccess) then Success(s.(lsb := lsb2))
        else if inst.execStart != -1 then Success(s.(lsb := lsb2))
        else if s.cache.numBlocks == 0 then Failure(NoCacheBlocks)
        else Success(StartStore(s, i, lsb2, e, address, size))
  }

  /** A store that starts: the cache is only probed, and the station and its buffer entry `e`
      count down the store latency plus the probed latency. */
  function StartStore(s: SimState, i: StationId, lsb: Buffer, e: nat, address: int, size: int): (r: SimState)
    requires Consistent(s) && Indexable(s.cache) && i < |s.pool.stations| && s.pool.stations[i].held.Some? && e < |lsb.entries|
    ensures Frames(s, r) && r == s.(pool := r.pool, exec := r.exec, lsb := r.lsb) && r.exec.ip == s.exec.ip
    ensures r.pool.stations[i].held == Some(Held(s.pool.stations[i].held.value.inst.(execStart := s.exec.cycle), s.pool.stations[i].held.value.slot))
    ensures forall k :: 0 <= k < |s.pool.stations| && k != i ==> r.pool.stations[k] == s.pool.stations[k]
    ensures r.lsb == lsb.(entries := r.lsb.entries) && |r.lsb.entries| == |lsb.entries|
    ensures forall k :: 0 <= k < |lsb.entries| && k != e ==> r.lsb.entries[k] == lsb.entries[k]
    ensures r.lsb.entries[e] == lsb.entries[e].(cycles := r.pool.stations[i].cycles)
    ensures r.pool.stations[i].cycles
            == Latency(s.pool, s.pool.stations[i].held.value.inst.op) + ProbeStore(s.cache, address, size).latency
  {
    var total := Latency(s.pool, s.pool.stations[i].held.value.inst.op) + ProbeStore(s.cache, address, size).latency;
    var lsb3 := lsb.(entries := lsb.entries[e := lsb.entries[e].(cycles := total)]);
    Start(s, i, total).(lsb := lsb3)
  }

  /** One station's turn in the stage; free stations and stations holding nothing are skipped. */
  function ExecuteStation(s: SimState, i: StationId): (r: Result<SimState, Fault>)
    requires Consistent(s) && i < |s.pool.stations|
    ensures r.Success? ==> Frames(s, r.value) && r.value.regs == s.regs && r.value.exec.ip == s.exec.ip && r.value.branchStall == s.branchStall
    ensures r.Success? ==> forall k :: 0 <= k < |s.pool.stations| && k != i ==> r.value.pool.stations[k] == s.pool.stations[k]
    ensures r.Success? ==> r.value.waiting == s.waiting && r.value.incomplete == s.incomplete
    ensures r.Success? ==> StartRule(s, i, r.value.pool.stations[i])
    ensures !s.pool.stations[i].busy || s.pool.stations[i].held.None? ==> r == Success(s)
  {
    var st := s.pool.stations[i];
    if !st.busy || st.held.None? then Success(s)
    else match CategoryOf(st.held.value.inst.op)
      case Load => ExecuteLoad(s, i)
      case Store => ExecuteStore(s, i)
      case _ => Success(ExecuteAlu(s, i))
  }

  /** The stage from station `i` on, in the order of the station list. */
  function ExecuteFrom(s: SimState, i: nat): (r: Result<SimState, Fault>)
    requires Consistent(s) && i <= |s.pool.stations|
    ensures r.Success? ==> Frames(s, r.value) && r.value.regs == s.regs && r.value.exec.ip == s.exec.ip && r.value.branchStall == s.branchStall
    ensures r.Success? ==> forall k :: 0 <= k < i ==> r.value.pool.stations[k] == s.pool.stations[k]
    ensures r.Success? ==> r.value.waiting == s.waiting && r.value.incomplete == s.incomplete
    decreases |s.pool.stations| - i
  {
    if i == |s.pool.stations| then Success(s)
    else
      var s1 :- ExecuteStation(s, i);
      ExecuteFrom(s1, i + 1)
  }

  /** `execute`. Registers, the program, the clock and the trace's length are left alone; only
      busy stations can change. */
  function Execute(s: SimState): (r: Result<SimState, Fault>)
    requires Consistent(s)
    ensures r.Success? ==> Frames(s, r.value) && r.value.regs == s.regs && r.value.exec.ip == s.exec.ip && r.value.branchStall == s.branchStall
  {
    ExecuteFrom(s, 0)
  }

  /** The stage from station `i` on obeys the start rule at every station it visits. */
  lemma {:induction false} ExecuteFromStartRule(s: SimState, i: nat)
    requires Consistent(s) && i <= |s.pool.stations| && ExecuteFrom(s, i).Success?
    ensures forall k :: i <= k < |s.pool.stations| ==> StartRule(s, k, ExecuteFrom(s, i).value.pool.stations[k])
    decreases |s.pool.stations| - i
  {
    if i < |s.pool.stations| {
      var s1 := ExecuteStation(s, i).value;
      var r := ExecuteFrom(s1, i + 1).value;
      ExecuteFromStartRule(s1, i + 1);
      forall k | i <= k < |s.pool.stations|
        ensures StartRule(s, k, r.pool.stations[k])
      {
        if k == i {
          assert r.pool.stations[i] == s1.pool.stations[i];
        } else {
          assert s1.pool.stations[k] == s.pool.stations[k];
          assert StartRule(s1, k, r.pool.stations[k]);
        }
      }
    }
  }

  /** In one pass of the stage a station changes only when it was allowed to start: its
      operands were available and it had not started, and it is then stamped with the cycle.
      A station that had already started, whose count-down is running, is left untouched. */
  lemma ExecuteStartsOnlyWhenAllowed(s: SimState)
    requires Consistent(s) && Execute(s).Success?
    ensures forall k :: 0 <= k < |s.pool.stations| ==> StartRule(s, k, Execute(s).value.pool.stations[k])
  {
    ExecuteFromStartRule(s, 0);
  }
}
