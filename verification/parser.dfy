/** The text assembler: cleaning the source lines, the label pass, the instruction pass with
    its per-category operand formats, and the resolution of branch labels into offsets. */
module Parser {
  import opened Wrappers
  import opened JavaInt
  import opened Text
  import opened Opcodes
  import opened Instructions

  /** A line survives cleaning when, trimmed, it is non-empty and not a comment. */
  predicate Kept(line: string) { |line| > 0 && line[0] != '#' }

  predicate IsTrimmed(s: string) { s == [] || (!IsTrimmable(s[0]) && !IsTrimmable(s[|s| - 1])) }

  /** Every line trimmed, in order. */
  function Trims(lines: seq<string>): (r: seq<string>)
    ensures |r| == |lines|
  {
    if |lines| == 0 then [] else [Trim(lines[0])] + Trims(lines[1..])
  }

  /** Each trimmed line sits where its line did. */
  lemma {:induction false} TrimsAt(lines: seq<string>)
    ensures forall i :: 0 <= i < |lines| ==> Trims(lines)[i] == Trim(lines[i])
  {
    if |lines| > 0 {
      TrimsAt(lines[1..]);
      assert forall i :: 1 <= i < |lines| ==> lines[1..][i - 1] == lines[i];
    }
  }

  /** The cleaning loop of `parseText`: every line trimmed, blank and comment lines dropped,
      the order kept. */
  function CleanLines(lines: seq<string>): (r: seq<string>)
    ensures |r| <= |lines|
  {
    if |lines| == 0 then []
    else
      var t := Trim(lines[0]);
      if Kept(t) then [t] + CleanLines(lines[1..]) else CleanLines(lines[1..])
  }

  /** Every line that survives cleaning is trimmed, non-empty and not a comment. */
  lemma {:induction false} CleanLinesKept(lines: seq<string>)
    ensures forall k :: 0 <= k < |CleanLines(lines)| ==> Kept(CleanLines(lines)[k]) && IsTrimmed(CleanLines(lines)[k])
  {
    if |lines| > 0 {
      CleanLinesKept(lines[1..]);
      var t := Trim(lines[0]);
      if Kept(t) {
        ConsClean(t, CleanLines(lines[1..]));
      }
    }
  }

  lemma ConsClean(t: string, rest: seq<string>)
    requires Kept(t) && IsTrimmed(t)
    requires forall k :: 0 <= k < |rest| ==> Kept(rest[k]) && IsTrimmed(rest[k])
    ensures forall k :: 0 <= k < |[t] + rest| ==> Kept(([t] + rest)[k]) && IsTrimmed(([t] + rest)[k])
  {
    assert forall k :: 0 < k < |[t] + rest| ==> ([t] + rest)[k] == rest[k - 1];
  }

  /** Cleaning drops exactly the trimmed lines that are blank or comments: every surviving
      line is some line trimmed, and every line that trims to a kept line survives. */
  lemma {:induction false} CleanLinesFaithful(lines: seq<string>)
    ensures forall k :: 0 <= k < |CleanLines(lines)| ==> CleanLines(lines)[k] in Trims(lines)
    ensures forall i :: 0 <= i < |lines| && Kept(Trim(lines[i])) ==> Trim(lines[i]) in CleanLines(lines)
  {
    if |lines| > 0 {
      CleanLinesFaithful(lines[1..]);
      var t := Trim(lines[0]);
      var rest := CleanLines(lines[1..]);
      var trims := Trims(lines[1..]);
      assert Trims(lines) == [t] + trims;
      assert forall i :: 1 <= i < |lines| ==> lines[1..][i - 1] == lines[i];
      assert forall x :: x in rest ==> x in trims;
      if Kept(t) {
        assert CleanLines(lines) == [t] + rest;
      } else {
        assert CleanLines(lines) == rest;
      }
    }
  }

  /** Cleaning is idempotent: a cleaned program has nothing left to drop or trim. */
  lemma {:induction false} CleanIdempotent(lines: seq<string>)
    ensures CleanLines(CleanLines(lines)) == CleanLines(lines)
  {
    if |lines| > 0 {
      CleanIdempotent(lines[1..]);
      var t := Trim(lines[0]);
      var rest := CleanLines(lines[1..]);
      if Kept(t) {
        TrimOfTrimmed(t);
        KeptFirst(t, rest);
      }
    }
  }

  /** Cleaning a kept, trimmed line followed by cleaned lines keeps that line. */
  lemma KeptFirst(t: string, rest: seq<string>)
    requires Kept(t) && Trim(t) == t
    ensures CleanLines([t] + rest) == [t] + CleanLines(rest)
  {
    var c := [t] + rest;
    assert c[0] == t && c[1..] == rest;
    assert CleanLines(c) == [Trim(c[0])] + CleanLines(c[1..]);
  }

  /** A cleaned line split at its first colon: the trimmed label before it and the trimmed
      instruction part after it; a line without a colon is all instruction part. */
  datatype Split = Split(tag: Option<string>, part: string)

  function SplitLabel(line: string): (r: Split)
    ensures r.tag.Some? <==> ':' in line
    ensures r.tag.None? ==> r.part == line
    ensures r.tag.Some? ==> ':' !in r.tag.value && IsTrimmed(r.tag.value) && IsTrimmed(r.part)
  {
    match IndexOf(line, ':')
    case None => Split(None, line)
    case Some(c) =>
      var name := Trim(line[..c]);
      TrimIsSlice(line[..c]);
      Split(Some(name), Trim(line[c + 1..]))
  }

  lemma TrimIsSlice(s: string)
    ensures forall ch :: ch in Trim(s) ==> ch in s
    ensures IsTrimmed(Trim(s))
  {
    TrimMembers(s);
  }


  /** Writing a label and an instruction part as `label: part` and splitting the line again
      gives them back, trimmed. */
  lemma SplitLabelOfJoined(name: string, part: string)
    requires ':' !in name
    ensures SplitLabel(name + ":" + part) == Split(Some(Trim(name)), Trim(part))
  {
    var line := name + ":" + part;
    assert line[..|name|] == name && line[|name| + 1..] == part;
    IndexOfAt(line, ':', |name|);
  }

  /** The text before any `#`, trimmed; a line without `#` is unchanged. */
  function StripComment(line: string): (r: string)
    ensures '#' !in r
    ensures '#' !in line ==> r == line
    ensures '#' in line ==> IsTrimmed(r) && forall ch :: ch in r ==> ch in line
  {
    match IndexOf(line, '#')
    case None => line
    case Some(c) => TrimIsSlice(line[..c]); Trim(line[..c])
  }

  /** The mnemonic word: the first piece of the comment-free text split at whitespace. */
  function MnemonicWord(line: string): Option<string> {
    var l := StripComment(line);
    if l == [] then None
    else
      var parts := SplitWhitespace(l);
      if |parts| == 0 then None else Some(parts[0])
  }

  /** An optional minus sign and at least one decimal digit: `-?\d+`. */
  predicate SignedDigits(s: string) {
    (|s| > 0 && AllDigits(s)) || (|s| > 1 && s[0] == '-' && AllDigits(s[1..]))
  }

  /** `R` or `F` and at least one decimal digit: `[RF]\d+`. */
  predicate RegisterWord(s: string) {
    |s| > 1 && (s[0] == 'R' || s[0] == 'F') && AllDigits(s[1..])
  }

  /** The pattern `(-?\d+)\(([RF]\d+)\)` matched against the whole operand: its two groups. */
  function AddressOperand(s: string): (r: Option<(string, string)>)
    ensures r.Some? ==> s == r.value.0 + "(" + r.value.1 + ")"
    ensures r.Some? ==> SignedDigits(r.value.0) && RegisterWord(r.value.1)
  {
    match IndexOf(s, '(')
    case None => None
    case Some(p) =>
      var rest := s[p + 1..];
      if |rest| == 0 || rest[|rest| - 1] != ')' then None
      else
        var offset := s[..p];
        var base := rest[..|rest| - 1];
        if SignedDigits(offset) && RegisterWord(base) then
          assert s == offset + "(" + base + ")";
          Some((offset, base))
        else None
  }

  /** Every operand of the form `offset(base)` matches, with exactly those groups. */
  lemma AddressOperandMatches(offset: string, base: string)
    requires SignedDigits(offset) && RegisterWord(base)
    ensures AddressOperand(offset + "(" + base + ")") == Some((offset, base))
  {
    var s := offset + "(" + base + ")";
    assert s[|offset|] == '(';
    assert s[..|offset|] == offset;
    assert s[|offset| + 1..] == base + ")";
    assert forall k :: 0 <= k < |offset| ==> s[k] == offset[k] && offset[k] != '(';
    assert forall k :: |offset| < k <= |s| ==> s[|offset|] in s[..k];
  }

  /** The operand fields `parseInstruction` fills in, by category, on an instruction that has
      its opcode and address. A malformed number is the caught `NumberFormatException`: no
      instruction. Too few operands leave the fields unset. */
  function ParseOperands(parts: seq<string>, inst: Instruction): (r: Option<Instruction>)
    ensures r.Some? ==> r.value.op == inst.op && r.value.address == inst.address
    ensures r.Some? && Unstamped(inst) ==> Unstamped(r.value)
    ensures r.None? <==>
      || (CategoryOf(inst.op) == IntegerAlu && |parts| >= 4 && ParseInt(parts[3]).None?)
      || ((CategoryOf(inst.op) == Load || CategoryOf(inst.op) == Store) && |parts| >= 3
          && AddressOperand(parts[2]).Some? && ParseInt(AddressOperand(parts[2]).value.0).None?)
    ensures |parts| < 3 ==> r == Some(inst)
    ensures |parts| < 4 && CategoryOf(inst.op) != Load && CategoryOf(inst.op) != Store ==> r == Some(inst)
    ensures r.Some? && (CategoryOf(inst.op) == Load || CategoryOf(inst.op) == Store) && |parts| >= 3 ==>
      if AddressOperand(parts[2]).Some?
      then r.value.imm == ParseInt(AddressOperand(parts[2]).value.0).value && r.value.base == Some(AddressOperand(parts[2]).value.1)
      else r.value.imm == inst.imm && r.value.base == inst.base
    ensures r.Some? && CategoryOf(inst.op) == IntegerAlu && |parts| >= 4 ==> r.value.imm == ParseInt(parts[3]).value
  {
    match CategoryOf(inst.op)
    case FpAddSub | FpMulDiv =>
      if |parts| >= 4 then
        Some(inst.(dest := Some(RemoveChar(parts[1], ',')), src1 := Some(RemoveChar(parts[2], ',')), src2 := Some(parts[3])))
      else Some(inst)
    case IntegerAlu =>
      if |parts| >= 4 then
        match ParseInt(parts[3])
        case None => None
        case Some(v) => Some(inst.(dest := Some(RemoveChar(parts[1], ',')), src1 := Some(RemoveChar(parts[2], ',')), imm := v))
      else Some(inst)
    case Load =>
      if |parts| >= 3 then
        ParseAddressInto(parts[2], inst.(dest := Some(RemoveChar(parts[1], ','))))
      else Some(inst)
    case Store =>
      if |parts| >= 3 then
        ParseAddressInto(parts[2], inst.(src1 := Some(RemoveChar(parts[1], ','))))
      else Some(inst)
    case Branch =>
      if |parts| >= 4 then
        Some(inst.(src1 := Some(Trim(RemoveChar(parts[1], ','))), src2 := Some(Trim(RemoveChar(parts[2], ','))),
                   branchTarget := Some(Trim(parts[3]))))
      else Some(inst)
  }

  /** `parseLoadStoreAddress`: a matching operand sets the offset and base register; any other
      operand leaves both as they were. */
  function ParseAddressInto(operand: string, inst: Instruction): (r: Option<Instruction>)
    ensures r.None? <==> AddressOperand(operand).Some? && ParseInt(AddressOperand(operand).value.0).None?
    ensures r.Some? ==> r.value == inst.(imm := r.value.imm, base := r.value.base)
    ensures r.Some? && AddressOperand(operand).None? ==> r.value == inst
  {
    match AddressOperand(operand)
    case None => Some(inst)
    case Some((offset, base)) =>
      match ParseInt(offset)
      case None => None
      case Some(v) => Some(inst.(imm := v, base := Some(base)))
  }

  /** `parseInstruction`: the opcode is the first word's mnemonic, ignoring case; an empty line,
      an unknown mnemonic or a malformed number gives no instruction. */
  function ParseInstruction(line: string, address: int): (r: Option<Instruction>)
    ensures MnemonicWord(line).None? ==> r.None?
    ensures r.Some? ==> MnemonicWord(line).Some? && EqualsIgnoreCase(Mnemonic(r.value.op), MnemonicWord(line).value)
    ensures MnemonicWord(line).Some? && FindByMnemonic(MnemonicWord(line).value).None? ==> r.None?
    ensures r.Some? ==> r.value.address == address && Unstamped(r.value)
  {
    var l := StripComment(line);
    if l == [] then None
    else
      var parts := SplitWhitespace(l);
      if |parts| == 0 then None
      else
        var w := parts[0];
        UpperIdempotent(w);
        FindFromIgnoresCase(Upper(w), w, 0);
        match FindByMnemonic(Upper(w))
        case None => None
        case Some(op) => ParseOperands(parts, Fresh(op).(address := address))
  }

  /** Whether a line parses does not depend on its address, and the instruction differs only
      in its address. */
  lemma ParseIgnoresAddress(line: string, a: int, b: int)
    ensures ParseInstruction(line, a).Some? <==> ParseInstruction(line, b).Some?
    ensures ParseInstruction(line, a).Some? ==> ParseInstruction(line, b).value == ParseInstruction(line, a).value.(address := b)
  {
    var l := StripComment(line);
    if l != [] {
      var parts := SplitWhitespace(l);
      if |parts| > 0 {
        var w := parts[0];
        match FindByMnemonic(Upper(w))
        case None =>
        case Some(op) =>
          var inst := Fresh(op).(address := a);
          assert Fresh(op).(address := b) == inst.(address := b);
          OperandsIgnoreAddress(parts, inst, b);
      }
    }
  }

  /** The operand parser never looks at or changes the address. */
  lemma OperandsIgnoreAddress(parts: seq<string>, inst: Instruction, b: int)
    ensures ParseOperands(parts, inst.(address := b)) == At(ParseOperands(parts, inst), b)
  {
  }

  /** What the second pass makes of one cleaned line at the running address: nothing for a
      label-only line or one that does not parse, else the parsed instruction. */
  function EmitLine(line: string, address: int): (r: Option<Instruction>)
    ensures r.Some? ==> r.value.address == address && Unstamped(r.value)
    ensures r.Some? ==> SplitLabel(line).part != []
  {
    var part := SplitLabel(line).part;
    if part == [] then None else ParseInstruction(part, address)
  }

  /** One cleaned line as both passes see it: its label, its instruction part, and the
      instruction it parses to, placed at address 0. */
  datatype LineInfo = LineInfo(tag: Option<string>, part: string, parsed: Option<Instruction>)

  function Analyze(line: string): (r: LineInfo)
    ensures r.tag == SplitLabel(line).tag && r.part == SplitLabel(line).part
    ensures r.parsed.Some? ==> r.part != [] && r.parsed.value.address == 0 && Unstamped(r.parsed.value)
  {
    var sp := SplitLabel(line);
    LineInfo(sp.tag, sp.part, EmitLine(line, 0))
  }

  /** An instruction placed at an address. */
  function At(inst: Option<Instruction>, address: int): Option<Instruction> {
    match inst
    case None => None
    case Some(i) => Some(i.(address := address))
  }

  /** Analysing a line once and placing its instruction at the running address is what the
      second pass gets by parsing the line at that address. */
  lemma AnalyzeAgrees(line: string, address: int)
    ensures At(Analyze(line).parsed, address) == EmitLine(line, address)
  {
    var part := SplitLabel(line).part;
    if part != [] {
      ParseIgnoresAddress(part, 0, address);
    }
  }

  function AnalyzeAll(lines: seq<string>): (r: seq<LineInfo>)
    ensures |r| == |lines| && forall i :: 0 <= i < |lines| ==> r[i] == Analyze(lines[i])
  {
    seq(|lines|, i requires 0 <= i < |lines| => Analyze(lines[i]))
  }

  /** How many of the lines yield an instruction. */
  function NumParsed(infos: seq<LineInfo>): nat {
    if |infos| == 0 then 0 else (if infos[0].parsed.Some? then 1 else 0) + NumParsed(infos[1..])
  }

  /** The second pass from `address` on: each line that parses gives the next instruction, at
      the running address, which then advances by 4; a label-only or unparseable line is
      skipped without advancing. */
  function Emitted(infos: seq<LineInfo>, address: int): (r: seq<Instruction>)
    ensures |r| == NumParsed(infos)
  {
    if |infos| == 0 then []
    else
      match infos[0].parsed
      case None => Emitted(infos[1..], address)
      case Some(inst) => [inst.(address := address)] + Emitted(infos[1..], address + 4)
  }

  /** The emitted instructions sit at consecutive words from the starting address, and none
      carries run-time state when none of the analysed lines does. */
  lemma {:induction false} EmittedLayout(infos: seq<LineInfo>, address: int)
    ensures forall k :: 0 <= k < |Emitted(infos, address)| ==> Emitted(infos, address)[k].address == address + 4 * k
    ensures AllUnstamped(infos) ==> forall k :: 0 <= k < |Emitted(infos, address)| ==> Unstamped(Emitted(infos, address)[k])
  {
    if |infos| > 0 {
      var next := if infos[0].parsed.Some? then address + 4 else address;
      EmittedLayout(infos[1..], next);
      assert forall i :: 1 <= i < |infos| ==> infos[1..][i - 1] == infos[i];
      var rest := Emitted(infos[1..], next);
      if infos[0].parsed.Some? {
        var inst := infos[0].parsed.value;
        assert Emitted(infos, address) == [inst.(address := address)] + rest;
        assert forall k :: 1 <= k < |rest| + 1 ==> ([inst.(address := address)] + rest)[k] == rest[k - 1];
      }
    }
  }

  predicate AllUnstamped(infos: seq<LineInfo>) {
    forall i :: 0 <= i < |infos| && infos[i].parsed.Some? ==> Unstamped(infos[i].parsed.value)
  }

  lemma {:induction false} NumParsedAppend(x: seq<LineInfo>, y: seq<LineInfo>)
    ensures NumParsed(x + y) == NumParsed(x) + NumParsed(y)
  {
    if |x| > 0 {
      assert (x + y)[1..] == x[1..] + y;
      NumParsedAppend(x[1..], y);
    } else {
      assert x + y == y;
    }
  }

  /** The second pass over two runs of lines is the pass over the first run followed by the
      pass over the second from where the first left off. */
  lemma {:induction false} EmittedAppend(x: seq<LineInfo>, y: seq<LineInfo>, address: int)
    ensures Emitted(x + y, address) == Emitted(x, address) + Emitted(y, address + 4 * NumParsed(x))
  {
    if |x| == 0 {
      assert x + y == y;
    } else {
      assert (x + y)[0] == x[0] && (x + y)[1..] == x[1..] + y;
      if x[0].parsed.Some? {
        EmittedAppend(x[1..], y, address + 4);
      } else {
        EmittedAppend(x[1..], y, address);
      }
    }
  }

  /** The first pass as written: a label takes the running address, which advances by 4 for
      every line without a label and every labelled line with a non-empty instruction part,
      whether or not that part will parse. */
  function LabelsAsWritten(infos: seq<LineInfo>, address: int): map<string, int> {
    if |infos| == 0 then map[]
    else
      var next := if infos[0].tag.None? || infos[0].part != [] then address + 4 else address;
      (if infos[0].tag.Some? then map[infos[0].tag.value := address] else map[]) + LabelsAsWritten(infos[1..], next)
  }

  /** The first pass as intended: the running address advances exactly when the second pass
      emits an instruction, so a label takes the address of the next instruction. A label
      defined twice keeps its last address, as the source's map does. */
  function Labels(infos: seq<LineInfo>, address: int): map<string, int> {
    if |infos| == 0 then map[]
    else
      var next := if infos[0].parsed.Some? then address + 4 else address;
      (if infos[0].tag.Some? then map[infos[0].tag.value := address] else map[]) + Labels(infos[1..], next)
  }

  /** Every label lies on a word boundary between the pass's first and last addresses. */
  lemma {:induction false} LabelsInRange(infos: seq<LineInfo>, address: int)
    ensures forall l :: l in Labels(infos, address) ==>
      address <= Labels(infos, address)[l] <= address + 4 * NumParsed(infos) && (Labels(infos, address)[l] - address) % 4 == 0
  {
    if |infos| > 0 {
      var next := if infos[0].parsed.Some? then address + 4 else address;
      LabelsInRange(infos[1..], next);
      var rest := Labels(infos[1..], next);
      forall l | l in rest
        ensures (rest[l] - address) % 4 == 0
      {
        assert rest[l] - address == (rest[l] - next) + (next - address);
      }
    }
  }

  /** A label's address is the running address after every instruction parsed from the lines
      before the line that last defines it. */
  lemma {:induction false} LabelAddress(infos: seq<LineInfo>, address: int, l: string)
    requires l in Labels(infos, address)
    ensures exists i :: 0 <= i < |infos| && infos[i].tag == Some(l) && Labels(infos, address)[l] == address + 4 * NumParsed(infos[..i])
  {
    var next := if infos[0].parsed.Some? then address + 4 else address;
    var rest := Labels(infos[1..], next);
    var m := Labels(infos, address);
    if l in rest {
      LabelAddress(infos[1..], next, l);
      var j :| 0 <= j < |infos[1..]| && infos[1..][j].tag == Some(l) && rest[l] == next + 4 * NumParsed(infos[1..][..j]);
      var i := j + 1;
      assert infos[..i][0] == infos[0] && infos[..i][1..] == infos[1..][..j];
      assert NumParsed(infos[..i]) == (if infos[0].parsed.Some? then 1 else 0) + NumParsed(infos[1..][..j]);
      assert infos[i] == infos[1..][j];
      assert m[l] == rest[l];
    } else {
      assert infos[0].tag == Some(l) && m[l] == address;
      assert NumParsed(infos[..0]) == 0;
    }
  }

  /** A label marks where its line's instructions begin: the instructions from that line
      onward are laid out from the label's address. */
  lemma LabelMarksNextInstruction(infos: seq<LineInfo>, address: int, l: string)
    requires l in Labels(infos, address)
    ensures exists i :: && 0 <= i < |infos| && infos[i].tag == Some(l)
                        && Labels(infos, address)[l] == address + 4 * NumParsed(infos[..i])
                        && Emitted(infos, address) == Emitted(infos[..i], address) + Emitted(infos[i..], Labels(infos, address)[l])
  {
    LabelAddress(infos, address, l);
    var m := Labels(infos, address);
    var i :| 0 <= i < |infos| && infos[i].tag == Some(l) && m[l] == address + 4 * NumParsed(infos[..i]);
    EmittedSplit(infos, i, address, m[l]);
  }

  /** The second pass over a program is the pass over a prefix followed by the rest, started
      where the prefix left off. */
  lemma EmittedSplit(infos: seq<LineInfo>, i: nat, address: int, resume: int)
    requires i <= |infos| && resume == address + 4 * NumParsed(infos[..i])
    ensures Emitted(infos, address) == Emitted(infos[..i], address) + Emitted(infos[i..], resume)
  {
    var x := infos[..i];
    var y := infos[i..];
    assert x + y == infos;
    EmittedAppend(x, y, address);
  }

  /** `resolveBranchTargets` for one instruction: a branch whose trimmed target is a label gets
      the offset, in instructions, from the slot after it to the label; otherwise a target that
      is an integer literal is the offset itself, and anything else gives offset 0. Other
      instructions are untouched. */
  function ResolveBranch(inst: Instruction, labels: map<string, int>): (r: Instruction)
    ensures r == inst.(imm := r.imm)
    ensures CategoryOf(inst.op) != Branch ==> r == inst
    ensures CategoryOf(inst.op) == Branch && inst.branchTarget.None? ==> r.imm == 0
    ensures CategoryOf(inst.op) == Branch && inst.branchTarget.Some? && Trim(inst.branchTarget.value) !in labels ==>
      r.imm == (match ParseInt(Trim(inst.branchTarget.value)) case Some(v) => v case None => 0)
  {
    if CategoryOf(inst.op) != Branch then inst
    else match inst.branchTarget
      case None => inst.(imm := 0)
      case Some(t) =>
        var target := Trim(t);
        if target in labels then inst.(imm := Quot(labels[target] - inst.address - 4, 4))
        else match ParseInt(target)
          case Some(v) => inst.(imm := v)
          case None => inst.(imm := 0)
  }

  /** A branch resolved against a label lands on it: the slot after the branch plus the offset
      in 4-byte instructions is the label's address, when both addresses are word-aligned. */
  lemma ResolvedBranchReachesLabel(inst: Instruction, labels: map<string, int>)
    requires CategoryOf(inst.op) == Branch && inst.branchTarget.Some? && Trim(inst.branchTarget.value) in labels
    requires inst.address % 4 == 0 && labels[Trim(inst.branchTarget.value)] % 4 == 0
    ensures inst.address + 4 + 4 * ResolveBranch(inst, labels).imm == labels[Trim(inst.branchTarget.value)]
  {
    var target := labels[Trim(inst.branchTarget.value)];
    var d := target - inst.address - 4;
    assert d == 4 * ((target / 4) - (inst.address / 4) - 1);
    QuotExactByFour(d);
    assert ResolveBranch(inst, labels).imm == Quot(d, 4);
  }

  function Resolve(insts: seq<Instruction>, labels: map<string, int>): (r: seq<Instruction>)
    ensures |r| == |insts| && forall k :: 0 <= k < |r| ==> r[k] == ResolveBranch(insts[k], labels)
  {
    seq(|insts|, k requires 0 <= k < |insts| => ResolveBranch(insts[k], labels))
  }

  /** The second pass with its branches resolved against the label pass. */
  function Assemble(infos: seq<LineInfo>): (r: seq<Instruction>)
    ensures |r| == NumParsed(infos) && forall k :: 0 <= k < |r| ==> r[k].address == 4 * k
    ensures AllUnstamped(infos) ==> forall k :: 0 <= k < |r| ==> Unstamped(r[k])
    ensures forall k :: 0 <= k < |r| && CategoryOf(r[k].op) == Branch && r[k].branchTarget.Some?
                        && Trim(r[k].branchTarget.value) in Labels(infos, 0) ==>
      r[k].address + 4 + 4 * r[k].imm == Labels(infos, 0)[Trim(r[k].branchTarget.value)]
  {
    var labels := Labels(infos, 0);
    var insts := Emitted(infos, 0);
    EmittedLayout(infos, 0);
    var r := Resolve(insts, labels);
    LabelsInRange(infos, 0);
    forall k | 0 <= k < |r| && CategoryOf(r[k].op) == Branch && r[k].branchTarget.Some? && Trim(r[k].branchTarget.value) in labels
      ensures r[k].address + 4 + 4 * r[k].imm == labels[Trim(r[k].branchTarget.value)]
    {
      BranchAt(insts, labels, k);
    }
    r
  }

  lemma BranchAt(insts: seq<Instruction>, labels: map<string, int>, k: nat)
    requires k < |insts| && insts[k].address == 4 * k
    requires forall l :: l in labels ==> labels[l] % 4 == 0
    requires CategoryOf(insts[k].op) == Branch && insts[k].branchTarget.Some? && Trim(insts[k].branchTarget.value) in labels
    ensures var r := ResolveBranch(insts[k], labels); r.address + 4 + 4 * r.imm == labels[Trim(r.branchTarget.value)]
  {
    var inst := insts[k];
    var target := Trim(inst.branchTarget.value);
    assert inst.address % 4 == 0;
    assert labels[target] % 4 == 0;
    ResolvedBranchReachesLabel(inst, labels);
    var r := ResolveBranch(inst, labels);
    assert r.address == inst.address && r.branchTarget == inst.branchTarget;
  }

  /** The cleaned, analysed lines of a program text split at newlines. */
  function Lines(text: string): (r: seq<LineInfo>)
    ensures AllUnstamped(r)
  {
    AnalyzeAll(CleanLines(SplitOn(text, '\n')))
  }

  /** `parseText` as written: the label pass advances past unparseable instruction parts. */
  function ParseTextAsWritten(text: string): (r: seq<Instruction>)
    ensures |r| == NumParsed(Lines(text)) && forall k :: 0 <= k < |r| ==> r[k].address == 4 * k && Unstamped(r[k])
  {
    var infos := Lines(text);
    EmittedLayout(infos, 0);
    Resolve(Emitted(infos, 0), LabelsAsWritten(infos, 0))
  }

  /** `parseText` with the label pass corrected: the program is the parsed lines in order at
      addresses 0, 4, 8, ..., and every branch to a label lands on the address the label
      marks. */
  function ParseText(text: string): (r: seq<Instruction>)
    ensures |r| == NumParsed(Lines(text)) && forall k :: 0 <= k < |r| ==> r[k].address == 4 * k && Unstamped(r[k])
    ensures forall k :: 0 <= k < |r| && CategoryOf(r[k].op) == Branch && r[k].branchTarget.Some?
                        && Trim(r[k].branchTarget.value) in Labels(Lines(text), 0) ==>
      r[k].address + 4 + 4 * r[k].imm == Labels(Lines(text), 0)[Trim(r[k].branchTarget.value)]
  {
    Assemble(Lines(text))
  }
}
