/** The architectural registers R0..R31 and F0..F31: a value and a producer tag per name.
    The source keeps integer and floating-point registers in separate maps; a name's first
    letter decides which map it lives in, so one map per kind, keyed by the full name, holds
    the same information. */
module RegisterFiles {
  import opened Wrappers
  import Text

  const NUM_INTEGER_REGISTERS: nat := 32
  const NUM_FP_REGISTERS: nat := 32

  datatype RegisterType = IntegerRegister | FloatingPointRegister

  /** A tag names the reservation station (by its index in the station list) that will produce the value. */
  datatype RegisterFile = RegisterFile(values: map<string, int>, tags: map<string, Option<nat>>)

  /** `getRegisterType`: decided by the first letter alone. */
  function TypeOf(name: string): (r: Option<RegisterType>)
    ensures r == Some(IntegerRegister) <==> Text.StartsWith(name, "R")
    ensures r == Some(FloatingPointRegister) <==> Text.StartsWith(name, "F")
  {
    if |name| > 0 && name[0] == 'R' then Some(IntegerRegister)
    else if |name| > 0 && name[0] == 'F' then Some(FloatingPointRegister)
    else None
  }

  function RegisterName(prefix: char, i: nat): string {
    [prefix] + Text.NatToString(i)
  }

  /** The 64 names the constructor and `reset` write. */
  function ArchitecturalNames(): set<string> {
    (set i | 0 <= i < NUM_INTEGER_REGISTERS :: RegisterName('R', i))
      + (set i | 0 <= i < NUM_FP_REGISTERS :: RegisterName('F', i))
  }

  /** `getValue`: a register never written reads as zero, and so does any name that is not a register. */
  function GetValue(rf: RegisterFile, name: string): int {
    if TypeOf(name).Some? && name in rf.values then rf.values[name] else 0
  }

  /** `setValue`: R0 is hard-wired to zero, and names of neither kind are ignored. */
  function SetValue(rf: RegisterFile, name: string, v: int): (r: RegisterFile)
    ensures r.tags == rf.tags
    ensures forall n :: n != name ==> GetValue(r, n) == GetValue(rf, n)
    ensures TypeOf(name).Some? && name != "R0" ==> GetValue(r, name) == v
    ensures TypeOf(name).None? || name == "R0" ==> r == rf
  {
    if TypeOf(name).Some? && name != "R0" then rf.(values := rf.values[name := v]) else rf
  }

  /** `getTag`: absent for a register nobody is producing and for any name that is not a register. */
  function GetTag(rf: RegisterFile, name: string): Option<nat> {
    if TypeOf(name).Some? && name in rf.tags then rf.tags[name] else None
  }

  /** `setTag` (and, with `None`, `clearTag`): names of neither kind are ignored. */
  function SetTag(rf: RegisterFile, name: string, tag: Option<nat>): (r: RegisterFile)
    ensures r.values == rf.values
    ensures forall n :: n != name ==> GetTag(r, n) == GetTag(rf, n)
    ensures TypeOf(name).Some? ==> GetTag(r, name) == tag
    ensures TypeOf(name).None? ==> r == rf
  {
    if TypeOf(name).Some? then rf.(tags := rf.tags[name := tag]) else rf
  }

  function ClearTag(rf: RegisterFile, name: string): (r: RegisterFile)
    ensures GetTag(r, name) == None
    ensures r.values == rf.values
    ensures forall n :: n != name ==> GetTag(r, n) == GetTag(rf, n)
  {
    SetTag(rf, name, None)
  }

  /** `reset`: every architectural register reads zero with no producer; other entries are left alone. */
  function Reset(rf: RegisterFile): (r: RegisterFile)
    ensures forall n :: n in ArchitecturalNames() ==> GetValue(r, n) == 0 && GetTag(r, n) == None
    ensures forall n :: n !in ArchitecturalNames() ==> GetValue(r, n) == GetValue(rf, n) && GetTag(r, n) == GetTag(rf, n)
  {
    ClearNames(rf, ArchitecturalNames())
  }

  /** Every register named in `names` reads zero with no producer; the rest are untouched. */
  function ClearNames(rf: RegisterFile, names: set<string>): (r: RegisterFile)
    ensures forall n :: n in names ==> GetValue(r, n) == 0 && GetTag(r, n) == None
    ensures forall n :: n !in names ==> GetValue(r, n) == GetValue(rf, n) && GetTag(r, n) == GetTag(rf, n)
  {
    RegisterFile(rf.values + map n | n in names :: 0, rf.tags + map n | n in names :: None)
  }

  /** The constructor: the same overlay applied to empty maps. */
  function Initial(): (r: RegisterFile)
    ensures forall n :: GetValue(r, n) == 0 && GetTag(r, n) == None
  {
    Reset(RegisterFile(map[], map[]))
  }

  /** Each architectural name is a register of the kind its letter says. */
  lemma {:induction false} ArchitecturalNamesTyped(i: nat)
    ensures i < NUM_INTEGER_REGISTERS ==> RegisterName('R', i) in ArchitecturalNames() && TypeOf(RegisterName('R', i)) == Some(IntegerRegister)
    ensures i < NUM_FP_REGISTERS ==> RegisterName('F', i) in ArchitecturalNames() && TypeOf(RegisterName('F', i)) == Some(FloatingPointRegister)
  {
    assert RegisterName('R', i)[0] == 'R';
    assert RegisterName('F', i)[0] == 'F';
  }

  /** R0 reads zero in every register file that `SetValue` and `Reset` can produce from the initial one. */
  lemma {:induction false} R0StaysZero(rf: RegisterFile, name: string, v: int)
    requires GetValue(rf, "R0") == 0
    ensures GetValue(SetValue(rf, name, v), "R0") == 0
    ensures GetValue(Reset(rf), "R0") == 0
  {
    ArchitecturalNamesTyped(0);
    assert RegisterName('R', 0) == "R0";
  }
}
