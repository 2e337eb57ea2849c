/** The instruction set: every opcode with its mnemonic, functional-unit category and default latency. */
module Opcodes {
  import opened Wrappers
  import Text

  datatype Category = FpAddSub | FpMulDiv | IntegerAlu | Load | Store | Branch

  datatype Opcode =
    | ADD_D | SUB_D | MUL_D | DIV_D
    | ADD_S | SUB_S | MUL_S | DIV_S
    | ADDI | DADDI | SUBI | DSUBI
    | L_D | L_S | LW | LD
    | S_D | S_S | SW | SD
    | BEQ | BNE

  /** The opcodes in declaration order, the order `values()` visits them. */
  const AllOpcodes: seq<Opcode> := [
    ADD_D, SUB_D, MUL_D, DIV_D, ADD_S, SUB_S, MUL_S, DIV_S,
    ADDI, DADDI, SUBI, DSUBI, L_D, L_S, LW, LD, S_D, S_S, SW, SD, BEQ, BNE]

  function Mnemonic(op: Opcode): string {
    match op
    case ADD_D => "ADD.D" case SUB_D => "SUB.D" case MUL_D => "MUL.D" case DIV_D => "DIV.D"
    case ADD_S => "ADD.S" case SUB_S => "SUB.S" case MUL_S => "MUL.S" case DIV_S => "DIV.S"
    case ADDI => "ADDI" case DADDI => "DADDI" case SUBI => "SUBI" case DSUBI => "DSUBI"
    case L_D => "L.D" case L_S => "L.S" case LW => "LW" case LD => "LD"
    case S_D => "S.D" case S_S => "S.S" case SW => "SW" case SD => "SD"
    case BEQ => "BEQ" case BNE => "BNE"
  }

  function CategoryOf(op: Opcode): Category {
    match op
    case ADD_D | SUB_D | ADD_S | SUB_S => FpAddSub
    case MUL_D | DIV_D | MUL_S | DIV_S => FpMulDiv
    case ADDI | DADDI | SUBI | DSUBI => IntegerAlu
    case L_D | L_S | LW | LD => Load
    case S_D | S_S | SW | SD => Store
    case BEQ | BNE => Branch
  }

  /** The latency each opcode is created with, before any reconfiguration. */
  function DefaultLatency(op: Opcode): (r: nat)
    ensures r >= 1
  {
    match op
    case ADD_D | SUB_D | ADD_S | SUB_S => 2
    case MUL_D | MUL_S => 10
    case DIV_D | DIV_S => 40
    case ADDI | DADDI | SUBI | DSUBI => 1
    case L_D | L_S | LW | LD => 2
    case S_D | S_S | SW | SD => 2
    case BEQ | BNE => 1
  }

  predicate IsFloatingPoint(op: Opcode) { CategoryOf(op) == FpAddSub || CategoryOf(op) == FpMulDiv }

  /** `findInstructionType`: the first opcode, in declaration order, whose mnemonic equals `m` ignoring case. */
  function FindByMnemonic(m: string): (r: Option<Opcode>)
    ensures r.Some? ==> Text.EqualsIgnoreCase(Mnemonic(r.value), m)
    ensures r.None? ==> forall k :: 0 <= k < |AllOpcodes| ==> !Text.EqualsIgnoreCase(Mnemonic(AllOpcodes[k]), m)
  {
    FindFrom(m, 0)
  }

  function FindFrom(m: string, i: nat): (r: Option<Opcode>)
    requires i <= |AllOpcodes|
    ensures r.Some? ==> Text.EqualsIgnoreCase(Mnemonic(r.value), m)
    ensures r.None? ==> forall k :: i <= k < |AllOpcodes| ==> !Text.EqualsIgnoreCase(Mnemonic(AllOpcodes[k]), m)
    decreases |AllOpcodes| - i
  {
    if i == |AllOpcodes| then None
    else if Text.EqualsIgnoreCase(Mnemonic(AllOpcodes[i]), m) then Some(AllOpcodes[i])
    else FindFrom(m, i + 1)
  }

  lemma EveryOpcodeListed(op: Opcode)
    ensures op in AllOpcodes
  {}

  /** Reading a mnemonic back: the inverse of `Mnemonic` on exact spellings. */
  function OpcodeNamed(m: string): (r: Option<Opcode>)
    ensures r.Some? ==> Mnemonic(r.value) == m
  {
    if m == "ADD.D" then Some(ADD_D) else if m == "SUB.D" then Some(SUB_D)
    else if m == "MUL.D" then Some(MUL_D) else if m == "DIV.D" then Some(DIV_D)
    else if m == "ADD.S" then Some(ADD_S) else if m == "SUB.S" then Some(SUB_S)
    else if m == "MUL.S" then Some(MUL_S) else if m == "DIV.S" then Some(DIV_S)
    else if m == "ADDI" then Some(ADDI) else if m == "DADDI" then Some(DADDI)
    else if m == "SUBI" then Some(SUBI) else if m == "DSUBI" then Some(DSUBI)
    else if m == "L.D" then Some(L_D) else if m == "L.S" then Some(L_S)
    else if m == "LW" then Some(LW) else if m == "LD" then Some(LD)
    else if m == "S.D" then Some(S_D) else if m == "S.S" then Some(S_S)
    else if m == "SW" then Some(SW) else if m == "SD" then Some(SD)
    else if m == "BEQ" then Some(BEQ) else if m == "BNE" then Some(BNE)
    else None
  }

  lemma OpcodeNamedMnemonic(op: Opcode)
    ensures OpcodeNamed(Mnemonic(op)) == Some(op)
  {}

  /** No two opcodes share a mnemonic. */
  lemma MnemonicInjective(a: Opcode, b: Opcode)
    ensures Mnemonic(a) == Mnemonic(b) ==> a == b
  {
    OpcodeNamedMnemonic(a);
    OpcodeNamedMnemonic(b);
  }

  /** No two opcodes share a mnemonic. */
  lemma MnemonicsDistinct()
    ensures forall a: Opcode, b: Opcode :: Mnemonic(a) == Mnemonic(b) ==> a == b
  {
    forall a: Opcode, b: Opcode
      ensures Mnemonic(a) == Mnemonic(b) ==> a == b
    {
      MnemonicInjective(a, b);
    }
  }

  lemma UpperMnemonic(op: Opcode)
    ensures Text.Upper(Mnemonic(op)) == Mnemonic(op)
  {
    var m := Mnemonic(op);
    forall i | 0 <= i < |m|
      ensures Text.UpperChar(m[i]) == m[i]
    {}
  }

  lemma SameMnemonicIgnoringCase(a: Opcode, b: Opcode)
    ensures Text.EqualsIgnoreCase(Mnemonic(a), Mnemonic(b)) <==> a == b
  {
    UpperMnemonic(a);
    UpperMnemonic(b);
    MnemonicInjective(a, b);
  }

  lemma {:induction false} FindFromOwn(op: Opcode, i: nat)
    requires i <= |AllOpcodes| && op in AllOpcodes[i..]
    ensures FindFrom(Mnemonic(op), i) == Some(op)
    decreases |AllOpcodes| - i
  {
    SameMnemonicIgnoringCase(AllOpcodes[i], op);
    if AllOpcodes[i] != op {
      assert op in AllOpcodes[i + 1..];
      FindFromOwn(op, i + 1);
    }
  }

  /** Looking up an opcode's own mnemonic, in any case, finds that opcode. */
  lemma {:induction false} FindOwnMnemonic(op: Opcode, m: string)
    requires Text.Upper(m) == Mnemonic(op)
    ensures FindByMnemonic(m) == Some(op)
  {
    UpperMnemonic(op);
    EveryOpcodeListed(op);
    FindFromOwn(op, 0);
    FindFromIgnoresCase(Mnemonic(op), m, 0);
  }

  lemma {:induction false} FindFromIgnoresCase(m: string, m': string, i: nat)
    requires i <= |AllOpcodes| && Text.Upper(m) == Text.Upper(m')
    ensures FindFrom(m, i) == FindFrom(m', i)
    decreases |AllOpcodes| - i
  {
    if i < |AllOpcodes| { FindFromIgnoresCase(m, m', i + 1); }
  }
}
