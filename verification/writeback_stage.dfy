/** The write-back stage: at most one station per cycle puts its result on the common data bus,
    the earliest-issued one first; simultaneous completions are tracked as groups. */
module WriteBackStage {
  import opened Wrappers
  import opened JavaInt
  import opened Opcodes
  import opened Instructions
  import opened Stations
  import opened StationPools
  import opened RegisterFiles
  import LoadStoreBuffers
  import BranchUnits
  import ExecutionStates
  import Text
  import IssueStage
  import opened SimStates

  /** A station in `readyStations`: busy, done counting down, and its execution has ended. */
  predicate AwaitsWriteBack(st: Station) {
    st.busy && st.cycles == 0 && st.held.Some? && st.held.value.inst.execEnd != -1
  }

  predicate HasDestination(st: Station) { st.dest.Some? && |st.dest.value| > 0 }

  /** A ready station the write-back loop acts on: one with a destination, a store or a branch.
      A ready station of another kind without a destination is passed over. */
  predicate Retirable(st: Station) {
    && AwaitsWriteBack(st)
    && (HasDestination(st) || CategoryOf(st.held.value.inst.op) == Store || CategoryOf(st.held.value.inst.op) == Branch)
  }

  /** The order the ready list is sorted in: by issue cycle, ties kept in station-list order. */
  predicate NoLaterThan(stations: seq<Station>, a: nat, b: nat)
    requires a < |stations| && b < |stations| && stations[a].held.Some? && stations[b].held.Some?
  {
    var ia := stations[a].held.value.inst.issueCycle;
    var ib := stations[b].held.value.inst.issueCycle;
    ia < ib || (ia == ib && a <= b)
  }

  /** The station the loop retires: the first retirable one in sorted order. */
  function PickRetiree(stations: seq<Station>): (r: Option<StationId>)
    ensures r.Some? ==> r.value < |stations| && Retirable(stations[r.value])
    ensures r.Some? ==> forall k :: 0 <= k < |stations| && Retirable(stations[k]) ==> NoLaterThan(stations, r.value, k)
    ensures r.None? ==> forall k :: 0 <= k < |stations| ==> !Retirable(stations[k])
  {
    PickAmong(stations, |stations|)
  }

  /** The earliest retirable station among the first `n`. */
  function PickAmong(stations: seq<Station>, n: nat): (r: Option<StationId>)
    requires n <= |stations|
    ensures r.Some? ==> r.value < n && Retirable(stations[r.value])
    ensures r.Some? ==> forall k :: 0 <= k < n && Retirable(stations[k]) ==> NoLaterThan(stations, r.value, k)
    ensures r.None? ==> forall k :: 0 <= k < n ==> !Retirable(stations[k])
  {
    if n == 0 then None
    else
      var best := PickAmong(stations, n - 1);
      var last := n - 1;
      if !Retirable(stations[last]) then best
      else if best.None? then Some(last)
      else if stations[last].held.value.inst.issueCycle < stations[best.value].held.value.inst.issueCycle then Some(last)
      else best
  }

  /** The ready stations that finished in the same cycle as another ready station. */
  function Simultaneous(stations: seq<Station>): (m: set<StationId>)
    ensures forall i :: i in m <==>
      && 0 <= i < |stations| && AwaitsWriteBack(stations[i])
      && exists k :: 0 <= k < |stations| && k != i && AwaitsWriteBack(stations[k]) && stations[k].held.value.inst.execEnd == stations[i].held.value.inst.execEnd
  {
    set i | 0 <= i < |stations| && AwaitsWriteBack(stations[i])
      && exists k :: 0 <= k < |stations| && k != i && AwaitsWriteBack(stations[k]) && stations[k].held.value.inst.execEnd == stations[i].held.value.inst.execEnd
  }

  /** The members of `m` whose execution ended in cycle `e`. */
  function EndingAt(stations: seq<Station>, m: set<StationId>, e: int): set<StationId> {
    set i | i in m && 0 <= i < |stations| && stations[i].held.Some? && stations[i].held.value.inst.execEnd == e
  }

  /** Each execution-end cycle's group gains the members of `m` that ended in it. */
  function MergeGroups(groups: map<int, set<StationId>>, stations: seq<Station>, m: set<StationId>): (r: map<int, set<StationId>>)
    requires forall i :: i in m ==> i < |stations| && stations[i].held.Some?
    ensures forall e :: e in groups ==> e in r
    ensures forall e :: e in r ==> r[e] == (if e in groups then groups[e] else {}) + EndingAt(stations, m, e)
    ensures forall i :: i in m ==> stations[i].held.value.inst.execEnd in r
  {
    var ends := set i | i in m :: stations[i].held.value.inst.execEnd;
    assert forall i :: i in m ==> stations[i].held.value.inst.execEnd in ends;
    map e | e in groups.Keys + ends :: (if e in groups then groups[e] else {}) + EndingAt(stations, m, e)
  }

  /** The grouping pass: each set of ready stations sharing an execution-end cycle joins that
      cycle's group and the incomplete members. */
  function RecordGroups(s: SimState): (r: SimState)
    ensures r == s.(groups := r.groups, incomplete := r.incomplete)
    ensures r.incomplete == s.incomplete + Simultaneous(s.pool.stations)
    ensures forall e :: e in s.groups ==> e in r.groups
    ensures forall e :: e in r.groups ==>
      r.groups[e] == (if e in s.groups then s.groups[e] else {}) + EndingAt(s.pool.stations, Simultaneous(s.pool.stations), e)
    ensures forall i :: i in Simultaneous(s.pool.stations) ==>
      var e := s.pool.stations[i].held.value.inst.execEnd; e in r.groups && i in r.groups[e]
  {
    var m := Simultaneous(s.pool.stations);
    var groups := MergeGroups(s.groups, s.pool.stations, m);
    s.(groups := groups, incomplete := s.incomplete + m)
  }

  /** `performOperation` on integer-valued operands: division by zero gives zero, and division
      rounds toward zero (the source divides doubles; see the model's notes). */
  function PerformOperation(op: Opcode, vj: int, vk: int): (r: int)
    ensures (op == ADD_D || op == ADD_S) ==> r == vj + vk
    ensures (op == SUB_D || op == SUB_S) ==> r == vj - vk
    ensures (op == MUL_D || op == MUL_S) ==> r == vj * vk
    ensures (op == DIV_D || op == DIV_S) && vk == 0 ==> r == 0
    ensures (op == DIV_D || op == DIV_S) && vk != 0 ==> vj == vk * r + Rem(vj, vk)
    ensures !IsFloatingPoint(op) ==> r == 0
  {
    match op
    case ADD_D | ADD_S => vj + vk
    case SUB_D | SUB_S => vj - vk
    case MUL_D | MUL_S => vj * vk
    case DIV_D | DIV_S => if vk != 0 then Quot(vj, vk) else 0
    case _ => 0
  }

  /** The value a retiring station with a destination writes. */
  function ComputeResult(st: Station, op: Opcode, imm: int): (r: Result<int, Fault>)
    ensures IsFloatingPoint(op) ==> if st.j.Ready? && st.k.Ready? then r == Success(PerformOperation(op, st.j.value, st.k.value)) else r == Failure(MissingOperand)
    ensures CategoryOf(op) == IntegerAlu ==>
      if !st.j.Ready? then r == Failure(MissingOperand)
      else if op == ADDI || op == DADDI then r == Success(st.j.value + imm)
      else r == Success(st.j.value - imm)
    ensures CategoryOf(op) == Load ==> if st.j.Ready? then r == Success(st.j.value) else r == Failure(MissingOperand)
    ensures CategoryOf(op) == Store || CategoryOf(op) == Branch ==> r == Success(0)
  {
    match CategoryOf(op)
    case FpAddSub | FpMulDiv =>
      if st.j.Ready? && st.k.Ready? then Success(PerformOperation(op, st.j.value, st.k.value)) else Failure(MissingOperand)
    case IntegerAlu =>
      if !st.j.Ready? then Failure(MissingOperand)
      else if op == ADDI || op == DADDI then Success(st.j.value + imm) else Success(st.j.value - imm)
    case Load => if st.j.Ready? then Success(st.j.value) else Failure(MissingOperand)
    case _ => Success(0)
  }

  /** The busy stations that are waiting on station `i` for an operand. */
  function Dependents(stations: seq<Station>, i: StationId): set<StationId> {
    set k | 0 <= k < |stations| && stations[k].busy && (stations[k].j == Pending(i) || stations[k].k == Pending(i))
  }

  /** The instruction of station `i` is marked written back in the current cycle. */
  function Stamp(s: SimState, i: StationId): (r: SimState)
    requires Consistent(s) && i < |s.pool.stations| && s.pool.stations[i].held.Some?
    ensures Frames(s, r) && r.exec.ip == s.exec.ip
    ensures r == s.(pool := r.pool, exec := r.exec)
    ensures var h := s.pool.stations[i].held.value;
      r.exec == ExecutionStates.WriteSlot(s.exec, h.slot, h.inst.(writeBack := s.exec.cycle, completed := true))
    ensures forall k :: 0 <= k < |s.pool.stations| && k != i ==> r.pool.stations[k] == s.pool.stations[k]
    ensures r.pool.stations[i].busy == s.pool.stations[i].busy
  {
    var h := s.pool.stations[i].held.value;
    SetInst(s, i, h.inst.(writeBack := s.exec.cycle, completed := true))
  }

  /** Station `i`'s instruction is marked written back and the station is freed. */
  function Finish(s: SimState, i: StationId): (r: SimState)
    requires Consistent(s) && i < |s.pool.stations| && s.pool.stations[i].held.Some?
    ensures Frames(s, r) && r.exec.ip == s.exec.ip
    ensures r == s.(pool := r.pool, exec := r.exec)
    ensures var h := s.pool.stations[i].held.value;
      r.exec == ExecutionStates.WriteSlot(s.exec, h.slot, h.inst.(writeBack := s.exec.cycle, completed := true))
    ensures forall k :: 0 <= k < |s.pool.stations| && k != i ==> r.pool.stations[k] == s.pool.stations[k]
    ensures r.pool.stations[i] == Clear(s.pool.stations[i]) && !r.pool.stations[i].busy
  {
    var s1 := Stamp(s, i);
    SetStation(s1, i, Clear(s1.pool.stations[i]))
  }

  /** The buffer entry of station `i`, if any, is removed. */
  function RemoveEntryOf(s: SimState, i: StationId): (r: SimState)
    ensures r == s.(lsb := r.lsb) && r.lsb.maxSize == s.lsb.maxSize
    ensures LoadStoreBuffers.EntryOf(s.lsb, i).None? ==> r.lsb == s.lsb
    ensures LoadStoreBuffers.EntryOf(s.lsb, i).Some? ==> r.lsb == LoadStoreBuffers.RemoveAt(s.lsb, LoadStoreBuffers.EntryOf(s.lsb, i).value)
  {
    match LoadStoreBuffers.EntryOf(s.lsb, i)
    case None => s
    case Some(e) => s.(lsb := LoadStoreBuffers.RemoveAt(s.lsb, e))
  }

  /** No member of the group is still busy with an instruction that has not written back. */
  predicate GroupDone(s: SimState, group: set<StationId>) {
    forall m :: m in group && m < |s.pool.stations| ==>
      var st := s.pool.stations[m];
      !(st.busy && st.held.Some? && st.held.value.inst.writeBack == -1)
  }

  /** `checkAndCleanupGroup`: once every member of the group of station `i` has written back,
      its members stop being incomplete and no station waits any more. */
  function CleanupGroup(s: SimState, i: StationId, end: int): (r: SimState)
    ensures r == s.(incomplete := r.incomplete, waiting := r.waiting)
    ensures if end in s.groups && i in s.groups[end] && GroupDone(s, s.groups[end])
            then r.incomplete == s.incomplete - s.groups[end] && r.waiting == {}
            else r == s
  {
    if end in s.groups && i in s.groups[end] && GroupDone(s, s.groups[end]) then
      s.(incomplete := s.incomplete - s.groups[end], waiting := {})
    else s
  }

  /** The result of station `i` goes to its destination register and to every station waiting
      on it; the register's tag is cleared only if it still names station `i`. Stations that
      receive it from a member of an unfinished group are remembered as waiting. */
  function Broadcast(s: SimState, i: StationId, dest: string, result: int): (r: SimState)
    ensures r == s.(regs := r.regs, waiting := r.waiting, pool := r.pool)
    ensures r.pool == UpdateOperands(s.pool, i, result)
    ensures TypeOf(dest).Some? && dest != "R0" ==> GetValue(r.regs, dest) == result
    ensures TypeOf(dest).None? || dest == "R0" ==> GetValue(r.regs, dest) == GetValue(s.regs, dest)
    ensures GetTag(r.regs, dest) == if GetTag(s.regs, dest) == Some(i) then None else GetTag(s.regs, dest)
    ensures forall n :: n != dest ==> GetValue(r.regs, n) == GetValue(s.regs, n) && GetTag(r.regs, n) == GetTag(s.regs, n)
    ensures forall k :: k in r.waiting <==>
      || k in s.waiting
      || (i in s.incomplete && 0 <= k < |s.pool.stations| && s.pool.stations[k].busy
          && (s.pool.stations[k].j == Pending(i) || s.pool.stations[k].k == Pending(i)))
  {
    var regs1 := SetValue(s.regs, dest, result);
    var regs2 := if GetTag(regs1, dest) == Some(i) then ClearTag(regs1, dest) else regs1;
    var waiting := if i in s.incomplete then s.waiting + Dependents(s.pool.stations, i) else s.waiting;
    s.(regs := regs2, waiting := waiting, pool := UpdateOperands(s.pool, i, result))
  }

  /** Retiring a station with a destination: its result is broadcast, its instruction marked
      written back, a load's buffer entry removed, and the station freed. */
  function RetireWithResult(s: SimState, i: StationId): (r: Result<SimState, Fault>)
    requires Consistent(s) && i < |s.pool.stations| && Retirable(s.pool.stations[i]) && HasDestination(s.pool.stations[i])
    ensures r.Success? ==> Frames(s, r.value) && r.value.exec.ip == s.exec.ip && r.value.branchStall == s.branchStall
    ensures r.Success? ==>
      var st := s.pool.stations[i];
      && ComputeResult(st, st.held.value.inst.op, st.held.value.inst.imm).Success?
      && var result := ComputeResult(st, st.held.value.inst.op, st.held.value.inst.imm).value;
      && r.value.regs == Broadcast(s, i, st.dest.value, result).regs
      && (forall k :: 0 <= k < |s.pool.stations| && k != i ==>
            r.value.pool.stations[k] == UpdateOperands(s.pool, i, result).stations[k])
      && !r.value.pool.stations[i].busy
      && r.value.exec == ExecutionStates.WriteSlot(s.exec, st.held.value.slot,
           st.held.value.inst.(writeBack := s.exec.cycle, completed := true))
    ensures r.Failure? ==> r.error == MissingOperand
  {
    var st := s.pool.stations[i];
    var h := st.held.value;
    var result :- ComputeResult(st, h.inst.op, h.inst.imm);
    var s1 := Broadcast(s, i, st.dest.value, result);
    assert s1.pool.stations[i].held == Some(h) by {
      assert s1.pool.stations[i] == s.pool.stations[i].(j := s1.pool.stations[i].j, k := s1.pool.stations[i].k);
    }
    var s2 := Finish(s1, i);
    var s3 := if CategoryOf(h.inst.op) == Load then RemoveEntryOf(s2, i) else s2;
    Success(CleanupGroup(s3, i, h.inst.execEnd))
  }

  /** Retiring a store: it is marked complete and its buffer entry leaves. */
  function RetireStore(s: SimState, i: StationId): (r: SimState)
    requires Consistent(s) && i < |s.pool.stations| && Retirable(s.pool.stations[i])
    ensures Frames(s, r) && r.exec.ip == s.exec.ip && r.regs == s.regs && r.branchStall == s.branchStall
    ensures forall k :: 0 <= k < |s.pool.stations| && k != i ==> r.pool.stations[k] == s.pool.stations[k]
    ensures !r.pool.stations[i].busy
    ensures r.exec == ExecutionStates.WriteSlot(s.exec, s.pool.stations[i].held.value.slot,
           s.pool.stations[i].held.value.inst.(writeBack := s.exec.cycle, completed := true))
    ensures r.lsb == RemoveEntryOf(s, i).lsb
  {
    var end := s.pool.stations[i].held.value.inst.execEnd;
    CleanupGroup(RemoveEntryOf(Finish(s, i), i), i, end)
  }

  /** The first program index whose instruction sits at `address`. */
  function FindAddress(program: seq<Instruction>, address: int, from: nat): (r: Option<nat>)
    requires from <= |program|
    ensures r.Some? ==> from <= r.value < |program| && program[r.value].address == address
    ensures r.Some? ==> forall k :: from <= k < r.value ==> program[k].address != address
    ensures r.None? ==> forall k :: from <= k < |program| ==> program[k].address != address
    decreases |program| - from
  {
    if from == |program| then None
    else if program[from].address == address then Some(from)
    else FindAddress(program, address, from + 1)
  }

  /** The first program index holding an instruction of opcode `op` at `address`. */
  function FindInstruction(program: seq<Instruction>, address: int, op: Opcode, from: nat): (r: Option<nat>)
    requires from <= |program|
    ensures r.Some? ==> from <= r.value < |program| && program[r.value].address == address && program[r.value].op == op
    ensures r.Some? ==> forall k :: from <= k < r.value ==> !(program[k].address == address && program[k].op == op)
    ensures r.None? ==> forall k :: from <= k < |program| ==> !(program[k].address == address && program[k].op == op)
    decreases |program| - from
  {
    if from == |program| then None
    else if program[from].address == address && program[from].op == op then Some(from)
    else FindInstruction(program, address, op, from + 1)
  }

  /** The 32-bit target address of a branch: `address + 4 + 4 * imm`. */
  function TargetAddress(inst: Instruction): int {
    Wrap32(inst.address + 4 + inst.imm * 4)
  }

  /** Index `t` holds the first instruction of the program placed at `address`. */
  predicate FirstAt(program: seq<Instruction>, address: int, t: int) {
    && 0 <= t < |program| && program[t].address == address
    && forall k :: 0 <= k < t ==> program[k].address != address
  }

  /** Index `b` holds the first instruction of the program with the branch's address and opcode. */
  predicate FirstCopyAt(program: seq<Instruction>, inst: Instruction, b: int) {
    && 0 <= b < |program| && program[b].address == inst.address && program[b].op == inst.op
    && forall k :: 0 <= k < b ==> !(program[k].address == inst.address && program[k].op == inst.op)
  }

  /** Where a taken branch sends the instruction pointer: the first instruction at the target
      address `address + 4 + 4 * imm`; failing that, `imm + 1` places past the index of the
      branch itself; failing that, nowhere (the pointer stays). */
  function BranchTarget(program: seq<Instruction>, inst: Instruction): (r: Option<nat>)
    ensures r.Some? ==> r.value < |program|
    ensures forall t :: FirstAt(program, TargetAddress(inst), t) ==> r == Some(t)
    ensures (forall k :: 0 <= k < |program| ==> program[k].address != TargetAddress(inst)) ==>
      && (forall b :: FirstCopyAt(program, inst, b) ==>
            r == if 0 <= Wrap32(b + inst.imm + 1) < |program| then Some(Wrap32(b + inst.imm + 1)) else None)
      && ((forall k :: 0 <= k < |program| ==> !(program[k].address == inst.address && program[k].op == inst.op)) ==> r.None?)
  {
    match FindAddress(program, TargetAddress(inst), 0)
    case Some(k) =>
      assert FirstAt(program, TargetAddress(inst), k);
      FirstAtUnique(program, TargetAddress(inst), k);
      Some(k)
    case None =>
      match FindInstruction(program, inst.address, inst.op, 0)
      case Some(b) =>
        assert FirstCopyAt(program, inst, b);
        FirstCopyAtUnique(program, inst, b);
        var t := Wrap32(b + inst.imm + 1);
        if 0 <= t < |program| then Some(t) else None
      case None => None
  }

  lemma FirstAtUnique(program: seq<Instruction>, address: int, t: int)
    requires FirstAt(program, address, t)
    ensures forall u :: FirstAt(program, address, u) ==> u == t
  {}

  lemma FirstCopyAtUnique(program: seq<Instruction>, inst: Instruction, b: int)
    requires FirstCopyAt(program, inst, b)
    ensures forall u :: FirstCopyAt(program, inst, u) ==> u == b
  {}

  /** Whether a retiring branch is taken: the condition on the registers' current values, read
      through the trimmed names; a branch with a missing name is not evaluated. */
  predicate TakenAtWriteBack(s: SimState, inst: Instruction) {
    && inst.src1.Some? && inst.src2.Some?
    && BranchUnits.Condition(inst.op, GetValue(s.regs, Text.Trim(inst.src1.value)), GetValue(s.regs, Text.Trim(inst.src2.value)))
  }

  /** Retiring a branch: a taken branch redirects the pointer, and issue resumes. A branch with a
      missing register name is only marked complete; its group is not checked. */
  function RetireBranch(s: SimState, i: StationId): (r: SimState)
    requires Consistent(s) && i < |s.pool.stations| && Retirable(s.pool.stations[i])
    ensures Frames(s, r) && r.regs == s.regs && !r.branchStall
    ensures forall k :: 0 <= k < |s.pool.stations| && k != i ==> r.pool.stations[k] == s.pool.stations[k]
    ensures !r.pool.stations[i].busy
    ensures var inst := s.pool.stations[i].held.value.inst;
      r.exec.ip == if TakenAtWriteBack(s, inst) && BranchTarget(s.program, inst).Some?
                   then BranchTarget(s.program, inst).value else s.exec.ip
    ensures r.exec.trace == ExecutionStates.WriteSlot(s.exec, s.pool.stations[i].held.value.slot,
           s.pool.stations[i].held.value.inst.(writeBack := s.exec.cycle, completed := true)).trace
  {
    var h := s.pool.stations[i].held.value;
    var inst := h.inst;
    var s1 := Redirect(s, inst);
    var s2 := Finish(s1, i).(branchStall := false);
    ExecutionStates.WriteSlotTrace(s1.exec, s.exec, h.slot, inst.(writeBack := s.exec.cycle, completed := true));
    if inst.src1.None? || inst.src2.None? then s2 else CleanupGroup(s2, i, inst.execEnd)
  }

  /** A branch taken at write-back with a known target moves the instruction pointer there and
      clears the completion flag; otherwise nothing changes. */
  function Redirect(s: SimState, inst: Instruction): (r: SimState)
    ensures r == s.(exec := r.exec) && r.exec.trace == s.exec.trace && r.exec.cycle == s.exec.cycle
    ensures r.exec.ip == if TakenAtWriteBack(s, inst) && BranchTarget(s.program, inst).Some?
                         then BranchTarget(s.program, inst).value else s.exec.ip
  {
    var target := BranchTarget(s.program, inst);
    if TakenAtWriteBack(s, inst) && target.Some? then s.(exec := s.exec.(ip := target.value, complete := false)) else s
  }

  function Retire(s: SimState, i: StationId): (r: Result<SimState, Fault>)
    requires Consistent(s) && i < |s.pool.stations| && Retirable(s.pool.stations[i])
    ensures r.Success? ==> Frames(s, r.value) && !r.value.pool.stations[i].busy
    ensures r.Success? ==> forall k :: 0 <= k < |s.pool.stations| && k != i ==>
      r.value.pool.stations[k].busy == s.pool.stations[k].busy && r.value.pool.stations[k].held == s.pool.stations[k].held
    ensures r.Success? ==> r.value.exec.trace == ExecutionStates.WriteSlot(s.exec, s.pool.stations[i].held.value.slot,
           s.pool.stations[i].held.value.inst.(writeBack := s.exec.cycle, completed := true)).trace
  {
    var st := s.pool.stations[i];
    if HasDestination(st) then RetireWithResult(s, i)
    else if CategoryOf(st.held.value.inst.op) == Store then Success(RetireStore(s, i))
    else Success(RetireBranch(s, i))
  }

  /** `writeBack`. Groups are recorded first; then the earliest retirable station, if any,
      retires and every other station keeps its busy flag and its instruction. */
  function WriteBack(s: SimState): (r: Result<SimState, Fault>)
    requires Consistent(s)
    ensures r.Success? ==> Frames(s, r.value)
    ensures PickRetiree(s.pool.stations).None? ==> r == Success(RecordGroups(s))
    ensures r.Success? ==> forall k :: 0 <= k < |s.pool.stations| && Some(k) != PickRetiree(s.pool.stations) ==>
      r.value.pool.stations[k].busy == s.pool.stations[k].busy && r.value.pool.stations[k].held == s.pool.stations[k].held
    ensures r.Success? && PickRetiree(s.pool.stations).Some? ==>
      var i := PickRetiree(s.pool.stations).value;
      var h := s.pool.stations[i].held.value;
      && !r.value.pool.stations[i].busy
      && r.value.exec.trace == ExecutionStates.WriteSlot(s.exec, h.slot, h.inst.(writeBack := s.exec.cycle, completed := true)).trace
  {
    var s1 := RecordGroups(s);
    assert s1.pool == s.pool && s1.exec == s.exec && s1.program == s.program && s1.cache == s.cache;
    assert s1.setsAllocated == s.setsAllocated;
    match PickRetiree(s1.pool.stations)
    case None => Success(s1)
    case Some(i) =>
      var r := Retire(s1, i);
      assert forall k :: 0 <= k < |s.pool.stations| && Some(k) != Some(i) ==> k != i;
      r
  }

  /** Once the station that was the only producer named in the register file broadcasts, nothing
      refers to it any more: no register is tagged with it and no station waits on it, and an
      issue that reads its destination afterwards gets the broadcast result. */
  lemma BroadcastReleasesProducer(s: SimState, i: StationId, dest: string, result: int)
    requires forall n :: GetTag(s.regs, n) == Some(i) ==> n == dest
    ensures var r := Broadcast(s, i, dest, result);
      && (forall n :: GetTag(r.regs, n) != Some(i))
      && (forall k :: 0 <= k < |r.pool.stations| ==> r.pool.stations[k].j != Pending(i) && r.pool.stations[k].k != Pending(i))
      && (GetTag(s.regs, dest) == Some(i) && dest != "R0" ==>
            IssueStage.OperandFrom(r.regs, Some(dest)) == Success(Ready(result)))
  {
    var r := Broadcast(s, i, dest, result);
    forall n
      ensures GetTag(r.regs, n) != Some(i)
    {
      if n != dest {
        assert GetTag(r.regs, n) == GetTag(s.regs, n);
      }
    }
  }

  /** On a program laid out one word per instruction from address 0, as the assembler places
      it, both ways of resolving a branch agree with index arithmetic: a branch at index `b`
      with offset `imm` goes to index `b + 1 + imm` whenever that index is in the program. */
  lemma BranchTargetOnLaidOutProgram(program: seq<Instruction>, inst: Instruction, b: nat)
    requires forall k :: 0 <= k < |program| ==> program[k].address == 4 * k
    requires 4 * |program| <= INT_MAX
    requires b < |program| && inst.address == 4 * b
    requires 0 <= b + 1 + inst.imm < |program|
    ensures BranchTarget(program, inst) == Some(b + 1 + inst.imm)
  {
    var t := b + 1 + inst.imm;
    assert TargetAddress(inst) == 4 * t;
    assert FirstAt(program, TargetAddress(inst), t);
  }
}
