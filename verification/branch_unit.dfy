/** The branch unit: evaluates a conditional branch once its operands are known at issue. */
module BranchUnits {
  import opened Wrappers
  import opened Opcodes
  import opened Instructions

  datatype BranchUnit = BranchUnit(current: Option<Instruction>, resolved: bool, taken: bool, target: int, cycles: int)

  /** `reset` (also the constructor): no branch, resolved, not taken, target -1. */
  function Reset(): (b: BranchUnit)
    ensures !IsProcessing(b)
    ensures b.current.None? && b.resolved && !b.taken && b.target == -1 && b.cycles == 0
  {
    BranchUnit(None, true, false, -1, 0)
  }

  /** `isProcessingBranch`: a branch has started and not yet resolved. */
  predicate IsProcessing(b: BranchUnit) {
    b.current.Some? && !b.resolved
  }

  /** Whether a BEQ or BNE with these operand values is taken; any other opcode is not. */
  predicate Condition(op: Opcode, v1: int, v2: int) {
    (op == BEQ && v1 == v2) || (op == BNE && v1 != v2)
  }

  /** The address control continues at: the word after the branch, moved by `imm` words when taken. */
  function TargetAddress(inst: Instruction, taken: bool): int {
    if taken then inst.address + 4 + inst.imm * 4 else inst.address + 4
  }

  /** `startBranch`: the branch becomes current and unresolved with one cycle to go; the condition
      and the target are evaluated now. */
  function StartBranch(b: BranchUnit, inst: Instruction, v1: int, v2: int): (r: BranchUnit)
    ensures IsProcessing(r) && r.current == Some(inst) && r.cycles == 1
    ensures r.taken <==> Condition(inst.op, v1, v2)
    ensures r.target - (inst.address + 4) == if r.taken then 4 * inst.imm else 0
  {
    var taken := Condition(inst.op, v1, v2);
    BranchUnit(Some(inst), false, taken, TargetAddress(inst, taken), 1)
  }

  /** `tick`: a processing branch counts down and resolves when it reaches zero. */
  function Tick(b: BranchUnit): (r: BranchUnit)
    ensures r.current == b.current && r.taken == b.taken && r.target == b.target
    ensures IsProcessing(b) && b.cycles == 1 ==> r.resolved && r.cycles == 0
    ensures !IsProcessing(b) || b.cycles <= 0 ==> r == b
  {
    if IsProcessing(b) && b.cycles > 0 then
      var c := b.cycles - 1;
      b.(cycles := c, resolved := c == 0)
    else b
  }

  /** A started branch resolves after exactly one tick and keeps its verdict. */
  lemma StartThenTickResolves(b: BranchUnit, inst: Instruction, v1: int, v2: int)
    ensures var r := Tick(StartBranch(b, inst, v1, v2));
      !IsProcessing(r) && r.resolved && (r.taken <==> Condition(inst.op, v1, v2))
  {}
}
