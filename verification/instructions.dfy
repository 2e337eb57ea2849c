/** One program instruction: its static operands, its address, and the cycle stamps the
    simulator records as it moves through issue, execution and write-back. */
module Instructions {
  import opened Wrappers
  import opened Opcodes
  import Text

  /** Register names, the base register and the branch target are Java references that may be null. */
  datatype Instruction = Instruction(
    op: Opcode,
    dest: Option<string>,
    src1: Option<string>,
    src2: Option<string>,
    imm: int,
    base: Option<string>,
    branchTarget: Option<string>,
    address: int,
    issueCycle: int,
    execStart: int,
    execEnd: int,
    writeBack: int,
    completed: bool)

  /** No stage has been reached yet. */
  predicate Unstamped(i: Instruction) {
    i.issueCycle == -1 && i.execStart == -1 && i.execEnd == -1 && i.writeBack == -1 && !i.completed
  }

  /** Two instructions say the same thing: they differ at most in their cycle stamps. */
  predicate SameText(a: Instruction, b: Instruction) {
    a.op == b.op && a.dest == b.dest && a.src1 == b.src1 && a.src2 == b.src2 && a.imm == b.imm
    && a.base == b.base && a.branchTarget == b.branchTarget && a.address == b.address
  }

  /** `new Instruction(type)`: every reference null, every number zero, nothing stamped. */
  function Fresh(op: Opcode): (r: Instruction)
    ensures Unstamped(r) && r.op == op
  {
    Instruction(op, None, None, None, 0, None, None, 0, -1, -1, -1, -1, false)
  }

  /** `copy()`: the static text is kept, the stamps and the completion flag are not. */
  function Copy(i: Instruction): (r: Instruction)
    ensures SameText(r, i) && Unstamped(r)
  {
    i.(issueCycle := -1, execStart := -1, execEnd := -1, writeBack := -1, completed := false)
  }

  /** Copying is determined by the text alone, so a copy of a copy is the copy. */
  lemma CopyIdempotent(a: Instruction, b: Instruction)
    requires SameText(a, b)
    ensures Copy(a) == Copy(b)
    ensures Copy(Copy(a)) == Copy(a)
  {}

  function Show(s: Option<string>): string {
    match s
    case Some(v) => v
    case None => "null"
  }

  /** The operand layout `toString` prints after the mnemonic, per category. */
  function OperandText(i: Instruction): string {
    match CategoryOf(i.op)
    case FpAddSub | FpMulDiv => Show(i.dest) + ", " + Show(i.src1) + ", " + Show(i.src2)
    case IntegerAlu => Show(i.dest) + ", " + Show(i.src1) + ", " + Text.IntToString(i.imm)
    case Load => Show(i.dest) + ", " + Text.IntToString(i.imm) + "(" + Show(i.base) + ")"
    case Store => Show(i.src1) + ", " + Text.IntToString(i.imm) + "(" + Show(i.base) + ")"
    case Branch => Show(i.src1) + ", " + Show(i.src2) + ", " + Show(i.branchTarget)
  }

  /** `toString`: the mnemonic, one space, then the operands; stamps never show. */
  function ToString(i: Instruction): (r: string)
    ensures Text.StartsWith(r, Mnemonic(i.op) + " ")
  {
    Mnemonic(i.op) + " " + OperandText(i)
  }
}
