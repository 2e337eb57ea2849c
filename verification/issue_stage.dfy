/** The issue stage: the instruction at the instruction pointer goes to the first free station
    of its pool, reading ready operands from the register file and tagging its destination. */
module IssueStage {
  import opened Wrappers
  import opened JavaInt
  import opened Opcodes
  import opened Instructions
  import opened Stations
  import opened StationPools
  import opened RegisterFiles
  import LoadStoreBuffers
  import BranchUnits
  import Text
  import opened SimStates

  /** The trace copy of the instruction at the pointer, stamped with the issue cycle. */
  function Candidate(s: SimState): (inst: Instruction)
    requires s.exec.ip < |s.program|
    ensures SameText(inst, s.program[s.exec.ip]) && inst.issueCycle == s.exec.cycle
    ensures inst.execStart == -1 && inst.execEnd == -1 && inst.writeBack == -1 && !inst.completed
  {
    Copy(s.program[s.exec.ip]).(issueCycle := s.exec.cycle)
  }

  /** Where a source operand comes from: its producer's station while the register is tagged,
      otherwise its current value. A null name makes the source throw. */
  function OperandFrom(regs: RegisterFile, name: Option<string>): (r: Result<Operand, Fault>)
    ensures name.None? <==> r == Failure(MissingRegisterName)
    ensures name.Some? && GetTag(regs, name.value).Some? ==> r == Success(Pending(GetTag(regs, name.value).value))
    ensures name.Some? && GetTag(regs, name.value).None? ==> r == Success(Ready(GetValue(regs, name.value)))
  {
    match name
    case None => Failure(MissingRegisterName)
    case Some(n) =>
      match GetTag(regs, n)
      case Some(t) => Success(Pending(t))
      case None => Success(Ready(GetValue(regs, n)))
  }

  /** The base register's operand for a load or store: the producer while tagged, otherwise
      the effective address `(int) value + imm`. */
  function AddressFrom(regs: RegisterFile, base: Option<string>, imm: int): (r: Result<Operand, Fault>)
    ensures base.None? <==> r == Failure(MissingRegisterName)
    ensures base.Some? && GetTag(regs, base.value).Some? ==> r == Success(Pending(GetTag(regs, base.value).value))
    ensures base.Some? && GetTag(regs, base.value).None? ==> r == Success(Ready(EffectiveAddress(GetValue(regs, base.value), imm)))
  {
    var o :- OperandFrom(regs, base);
    Success(if o.Ready? then Ready(EffectiveAddress(o.value, imm)) else o)
  }

  /** The destination register is tagged with the issuing station; a null name throws. */
  function TagDestination(regs: RegisterFile, dest: Option<string>, i: StationId): (r: Result<RegisterFile, Fault>)
    ensures dest.None? <==> r.Failure?
    ensures r.Success? ==> r.value == SetTag(regs, dest.value, Some(i))
  {
    match dest
    case None => Failure(MissingRegisterName)
    case Some(d) => Success(SetTag(regs, d, Some(i)))
  }

  /** Station `i` takes the instruction with the given operands; the instruction joins the
      trace and the pointer moves on. */
  function Admit(s: SimState, i: StationId, inst: Instruction, j: Operand, k: Operand, dest: Option<string>): (r: SimState)
    requires i < |s.pool.stations|
    ensures |r.pool.stations| == |s.pool.stations| && r.pool.latencies == s.pool.latencies
    ensures r.exec.trace == s.exec.trace + [inst] && r.exec.ip == s.exec.ip + 1
    ensures r.pool.stations[i] == s.pool.stations[i].(busy := true, op := Some(inst.op), j := j, k := k, dest := dest, held := Some(Held(inst, |s.exec.trace|)))
    ensures forall n :: 0 <= n < |s.pool.stations| && n != i ==> r.pool.stations[n] == s.pool.stations[n]
    ensures r == s.(pool := r.pool, exec := r.exec)
  {
    var st := s.pool.stations[i].(busy := true, op := Some(inst.op), j := j, k := k, dest := dest, held := Some(Held(inst, |s.exec.trace|)));
    var s1 := SetStation(s, i, st);
    s1.(exec := s1.exec.(trace := s1.exec.trace + [inst], ip := s1.exec.ip + 1))
  }

  /** `issueBranch`. Operands are read from the trimmed register names; while either is still
      being produced nothing issues. Otherwise the branch unit evaluates it and issue stalls
      until the branch writes back. The station's destination is left as it is. */
  function IssueBranch(s: SimState, i: StationId, inst: Instruction): (r: Result<SimState, Fault>)
    requires i < |s.pool.stations|
    ensures inst.src1.None? || inst.src2.None? <==> r.Failure?
    ensures r.Success? ==>
      var t1 := GetTag(s.regs, Text.Trim(inst.src1.value));
      var t2 := GetTag(s.regs, Text.Trim(inst.src2.value));
      if t1.Some? || t2.Some? then r.value == s
      else
        var v1 := GetValue(s.regs, Text.Trim(inst.src1.value));
        var v2 := GetValue(s.regs, Text.Trim(inst.src2.value));
        && r.value == Admit(s, i, inst, Ready(v1), Ready(v2), s.pool.stations[i].dest).(
             branchUnit := BranchUnits.StartBranch(s.branchUnit, inst, v1, v2), branchStall := true)
  {
    if inst.src1.None? || inst.src2.None? then Failure(MissingRegisterName)
    else
      var n1 := Text.Trim(inst.src1.value);
      var n2 := Text.Trim(inst.src2.value);
      if GetTag(s.regs, n1).Some? || GetTag(s.regs, n2).Some? then Success(s)
      else
        var v1 := GetValue(s.regs, n1);
        var v2 := GetValue(s.regs, n2);
        Success(Admit(s, i, inst, Ready(v1), Ready(v2), s.pool.stations[i].dest).(
          branchUnit := BranchUnits.StartBranch(s.branchUnit, inst, v1, v2), branchStall := true))
  }

  /** Floating-point add/sub and mul/div: both operands from registers, destination tagged. */
  function IssueFloatingPoint(s: SimState, i: StationId, inst: Instruction): (r: Result<SimState, Fault>)
    requires i < |s.pool.stations|
    ensures r.Failure? <==> inst.src1.None? || inst.src2.None? || inst.dest.None?
    ensures r.Failure? ==> r.error == MissingRegisterName
    ensures r.Success? ==>
      && inst.src1.Some? && inst.src2.Some? && inst.dest.Some?
      && r.value.regs == SetTag(s.regs, inst.dest.value, Some(i))
      && r.value == Admit(s, i, inst, OperandFrom(s.regs, inst.src1).value, OperandFrom(s.regs, inst.src2).value, inst.dest).(regs := r.value.regs)
  {
    var j :- OperandFrom(s.regs, inst.src1);
    var k :- OperandFrom(s.regs, inst.src2);
    var regs :- TagDestination(s.regs, inst.dest, i);
    Success(Admit(s, i, inst, j, k, inst.dest).(regs := regs))
  }

  /** Integer immediate arithmetic: the first operand from a register, the second is the immediate. */
  function IssueInteger(s: SimState, i: StationId, inst: Instruction): (r: Result<SimState, Fault>)
    requires i < |s.pool.stations|
    ensures r.Failure? <==> inst.src1.None? || inst.dest.None?
    ensures r.Failure? ==> r.error == MissingRegisterName
    ensures r.Success? ==>
      && inst.src1.Some? && inst.dest.Some?
      && r.value.regs == SetTag(s.regs, inst.dest.value, Some(i))
      && r.value == Admit(s, i, inst, OperandFrom(s.regs, inst.src1).value, Ready(inst.imm), inst.dest).(regs := r.value.regs)
  {
    var j :- OperandFrom(s.regs, inst.src1);
    var regs :- TagDestination(s.regs, inst.dest, i);
    Success(Admit(s, i, inst, j, Ready(inst.imm), inst.dest).(regs := regs))
  }

  /** Loads: the base register gives the address operand. When the address is already known and
      an earlier, unfinished access may overlap it, the load does not issue this cycle. Otherwise
      it reserves a buffer entry; its second operand is left as it is. */
  function IssueLoad(s: SimState, i: StationId, inst: Instruction): (r: Result<SimState, Fault>)
    requires i < |s.pool.stations|
    ensures r.Success? ==> inst.base.Some?
    ensures r.Success? && r.value != s ==>
      && inst.dest.Some?
      && var j := AddressFrom(s.regs, inst.base, inst.imm).value;
      && !(j.Ready? && LoadStoreBuffers.HasAddressClashAtIssue(s.lsb, j.value, LoadSize(inst.op), LoadStoreBuffers.LoadAccess, inst.issueCycle))
      && r.value.regs == SetTag(s.regs, inst.dest.value, Some(i))
      && r.value.lsb == LoadStoreBuffers.ReserveEntry(s.lsb, inst, i)
      && r.value == Admit(s, i, inst, j, s.pool.stations[i].k, inst.dest).(regs := r.value.regs, lsb := r.value.lsb)
  {
    var j :- AddressFrom(s.regs, inst.base, inst.imm);
    if j.Ready? && LoadStoreBuffers.HasAddressClashAtIssue(s.lsb, j.value, LoadSize(inst.op), LoadStoreBuffers.LoadAccess, inst.issueCycle) then
      Success(s)
    else
      var regs :- TagDestination(s.regs, inst.dest, i);
      Success(Admit(s, i, inst, j, s.pool.stations[i].k, inst.dest).(regs := regs, lsb := LoadStoreBuffers.ReserveEntry(s.lsb, inst, i)))
  }

  /** Stores: the source register gives the value, the base register the address; no destination.
      The same issue-time clash check applies once the address is known. */
  function IssueStore(s: SimState, i: StationId, inst: Instruction): (r: Result<SimState, Fault>)
    requires i < |s.pool.stations|
    ensures r.Success? ==> inst.src1.Some? && inst.base.Some? && r.value.regs == s.regs
    ensures r.Success? && r.value != s ==>
      && var k := AddressFrom(s.regs, inst.base, inst.imm).value;
      && !(k.Ready? && LoadStoreBuffers.HasAddressClashAtIssue(s.lsb, k.value, StoreSize(inst.op), LoadStoreBuffers.StoreAccess, inst.issueCycle))
      && r.value.lsb == LoadStoreBuffers.ReserveEntry(s.lsb, inst, i)
      && r.value == Admit(s, i, inst, OperandFrom(s.regs, inst.src1).value, k, None).(lsb := r.value.lsb)
  {
    var j :- OperandFrom(s.regs, inst.src1);
    var k :- AddressFrom(s.regs, inst.base, inst.imm);
    if k.Ready? && LoadStoreBuffers.HasAddressClashAtIssue(s.lsb, k.value, StoreSize(inst.op), LoadStoreBuffers.StoreAccess, inst.issueCycle) then
      Success(s)
    else
      Success(Admit(s, i, inst, j, k, None).(lsb := LoadStoreBuffers.ReserveEntry(s.lsb, inst, i)))
  }

  /** `issue`. Nothing happens past the end of the program or when the instruction's pool has
      no free station; otherwise the category decides. */
  function Issue(s: SimState): (r: Result<SimState, Fault>)
    ensures s.exec.ip >= |s.program| ==> r == Success(s)
    ensures s.exec.ip < |s.program| && FindAvailable(s.pool, s.program[s.exec.ip].op).None? ==> r == Success(s)
    ensures r.Success? ==> r.value.program == s.program && r.value.exec.cycle == s.exec.cycle
    ensures r.Success? ==> r.value.cache == s.cache && r.value.setsAllocated == s.setsAllocated
    ensures r.Success? ==> |r.value.pool.stations| == |s.pool.stations| && r.value.pool.latencies == s.pool.latencies
    ensures r.Success? ==> r.value == s || (r.value.exec.trace == s.exec.trace + [Candidate(s)] && r.value.exec.ip == s.exec.ip + 1)
  {
    if s.exec.ip >= |s.program| then Success(s)
    else
      var inst := Candidate(s);
      match FindAvailable(s.pool, inst.op)
      case None => Success(s)
      case Some(i) =>
        match CategoryOf(inst.op)
        case Branch => IssueBranch(s, i, inst)
        case FpAddSub => IssueFloatingPoint(s, i, inst)
        case FpMulDiv => IssueFloatingPoint(s, i, inst)
        case IntegerAlu => IssueInteger(s, i, inst)
        case Load => IssueLoad(s, i, inst)
        case Store => IssueStore(s, i, inst)
  }
}
