/** A two-line program on which the label pass as written and as intended disagree: a
    labelled line whose instruction part is only a comment, then a labelled branch to its
    own label. */
module ParserExamples {
  import opened Wrappers
  import Text
  import JavaInt
  import Opcodes
  import Instructions
  import Parser

  const FirstLine: string := "X: #"
  const BranchPart: string := "BEQ R1, R2, L"
  const SecondLine: string := "L: BEQ R1, R2, L"
  const SkewExample: string := FirstLine + "\n" + SecondLine

  // ---- Generic steps, free of string literals ----

  lemma CleanSingle(line: string)
    requires Parser.Kept(line) && Parser.IsTrimmed(line)
    ensures Parser.CleanLines([line]) == [line]
  {
    var lines := [line];
    assert lines[0] == line && lines[1..] == [];
    Text.TrimOfTrimmed(line);
    CleanCons(lines);
    assert Parser.CleanLines(lines) == [line] + Parser.CleanLines([]);
  }

  lemma CleanCons(lines: seq<string>)
    requires |lines| > 0 && Parser.Kept(Text.Trim(lines[0]))
    ensures Parser.CleanLines(lines) == [Text.Trim(lines[0])] + Parser.CleanLines(lines[1..])
  {
  }

  lemma CleanPair(a: string, b: string)
    requires Parser.Kept(a) && Parser.IsTrimmed(a) && Parser.Kept(b) && Parser.IsTrimmed(b)
    ensures Parser.CleanLines([a, b]) == [a, b]
  {
    var lines := [a, b];
    assert lines[0] == a && lines[1..] == [b];
    Text.TrimOfTrimmed(a);
    CleanCons(lines);
    CleanSingle(b);
    assert Parser.CleanLines(lines) == [a] + [b];
  }

  lemma WordsStep(s: string, w: string, rest: string)
    requires s == w + (" " + rest) && Text.IsWord(w)
    ensures Text.Words(s) == [w] + Text.Words(rest)
  {
    Text.WordsOfWord(w, " " + rest);
    Text.WordsAfterBlank(rest);
  }

  lemma WordsLast(w: string)
    requires Text.IsWord(w)
    ensures Text.Words(w) == [w]
  {
    Text.WordsOfLoneWord(w);
  }

  lemma PairOf<T>(r: seq<T>) requires |r| == 2 ensures r == [r[0], r[1]] {}
  lemma Cons2<T>(a: T, b: T) ensures [a] + [b] == [a, b] {}
  lemma Cons3<T>(a: T, b: T, c: T) ensures [a] + [b, c] == [a, b, c] {}
  lemma Cons4<T>(a: T, b: T, c: T, d: T) ensures [a] + [b, c, d] == [a, b, c, d] {}

  /** A line whose words are a branch mnemonic and three operands parses to that branch, with
      the last operand, trimmed, as its target. */
  lemma ParseBranchWords(line: string, w0: string, w1: string, w2: string, w3: string, op: Opcodes.Opcode, a: int)
    requires line != [] && '#' !in line && Text.SplitWhitespace(line) == [w0, w1, w2, w3]
    requires Text.Upper(w0) == Opcodes.Mnemonic(op) && Opcodes.CategoryOf(op) == Opcodes.Branch
    ensures var r := Parser.ParseInstruction(line, a);
            r.Some? && r.value.op == op && r.value.branchTarget == Some(Text.Trim(w3)) && r.value.address == a
  {
    Text.UpperIdempotent(w0);
    Opcodes.FindOwnMnemonic(op, Text.Upper(w0));
  }

  lemma SplitLabelled(line: string, name: string, part: string, n: string, p: string)
    requires line == name + ":" + part && ':' !in name && Text.Trim(name) == n && Text.Trim(part) == p
    ensures Parser.SplitLabel(line) == Parser.Split(Some(n), p)
  {
    Parser.SplitLabelOfJoined(name, part);
  }

  /** A labelled line whose part is non-empty carries the label, the part and its parse. */
  lemma AnalyzeLabelled(line: string, name: string, part: string)
    requires Parser.SplitLabel(line) == Parser.Split(Some(name), part) && part != []
    ensures Parser.Analyze(line) == Parser.LineInfo(Some(name), part, Parser.ParseInstruction(part, 0))
  {
  }

  /** The label skew on any two lines of this shape: a labelled line that does not parse but
      is not empty, then a line labelled `l` holding a branch to `l`. */
  lemma SkewOn(x: string, part: string, l: string, second: Parser.LineInfo)
    requires part != [] && second.tag == Some(l) && second.parsed.Some?
    requires Opcodes.CategoryOf(second.parsed.value.op) == Opcodes.Branch
    requires second.parsed.value.branchTarget == Some(l) && Text.Trim(l) == l
    ensures var infos := [Parser.LineInfo(Some(x), part, None), second];
            var inst := second.parsed.value.(address := 0);
            && Parser.Emitted(infos, 0) == [inst]
            && l in Parser.LabelsAsWritten(infos, 0) && Parser.LabelsAsWritten(infos, 0)[l] == 4
            && l in Parser.Labels(infos, 0) && Parser.Labels(infos, 0)[l] == 0
            && Parser.Resolve(Parser.Emitted(infos, 0), Parser.LabelsAsWritten(infos, 0)) == [inst.(imm := 0)]
            && Parser.Resolve(Parser.Emitted(infos, 0), Parser.Labels(infos, 0)) == [inst.(imm := -1)]
  {
    var infos := [Parser.LineInfo(Some(x), part, None), second];
    var inst := second.parsed.value.(address := 0);
    SkewEmitted(x, part, second);
    SkewLabels(x, part, l, second);
    ResolveOne(inst, Parser.LabelsAsWritten(infos, 0), l, 4, 0);
    ResolveOne(inst, Parser.Labels(infos, 0), l, 0, -1);
  }

  lemma SkewEmitted(x: string, part: string, second: Parser.LineInfo)
    requires second.parsed.Some?
    ensures Parser.Emitted([Parser.LineInfo(Some(x), part, None), second], 0) == [second.parsed.value.(address := 0)]
  {
    var infos := [Parser.LineInfo(Some(x), part, None), second];
    assert infos[1..] == [second];
    assert [second][1..] == [];
  }

  lemma SkewLabels(x: string, part: string, l: string, second: Parser.LineInfo)
    requires part != [] && second.tag == Some(l) && second.parsed.Some?
    ensures var infos := [Parser.LineInfo(Some(x), part, None), second];
            && l in Parser.LabelsAsWritten(infos, 0) && Parser.LabelsAsWritten(infos, 0)[l] == 4
            && l in Parser.Labels(infos, 0) && Parser.Labels(infos, 0)[l] == 0
  {
    var infos := [Parser.LineInfo(Some(x), part, None), second];
    assert infos[1..] == [second];
    assert [second][1..] == [];
    assert Parser.LabelsAsWritten([second], 4) == map[l := 4];
    assert Parser.Labels([second], 0) == map[l := 0];
  }

  /** A lone branch at address 0 to a label at `target` gets the offset `imm`. */
  lemma ResolveOne(inst: Instructions.Instruction, labels: map<string, int>, l: string, target: int, imm: int)
    requires inst.address == 0 && Opcodes.CategoryOf(inst.op) == Opcodes.Branch
    requires inst.branchTarget == Some(l) && Text.Trim(l) == l && l in labels && labels[l] == target
    requires 4 * imm == target - 4
    ensures Parser.Resolve([inst], labels) == [inst.(imm := imm)]
  {
    JavaInt.QuotExactByFour(target - 4);
    assert Parser.ResolveBranch(inst, labels) == inst.(imm := imm);
  }

  lemma LinesOf(text: string, lines: seq<string>)
    requires Parser.CleanLines(Text.SplitOn(text, '\n')) == lines
    ensures Parser.Lines(text) == Parser.AnalyzeAll(lines)
  {
  }

  lemma AnalyzePair(a: string, b: string, x: Parser.LineInfo, y: Parser.LineInfo)
    requires Parser.Analyze(a) == x && Parser.Analyze(b) == y
    ensures Parser.AnalyzeAll([a, b]) == [x, y]
  {
    var lines := [a, b];
    var r := Parser.AnalyzeAll(lines);
    assert |r| == 2;
    assert r[0] == Parser.Analyze(lines[0]) && lines[0] == a;
    assert r[1] == Parser.Analyze(lines[1]) && lines[1] == b;
    PairOf(r);
  }

  lemma AsWrittenOf(text: string, infos: seq<Parser.LineInfo>)
    requires Parser.Lines(text) == infos
    ensures Parser.ParseTextAsWritten(text) == Parser.Resolve(Parser.Emitted(infos, 0), Parser.LabelsAsWritten(infos, 0))
  {
  }

  lemma CorrectedOf(text: string, infos: seq<Parser.LineInfo>)
    requires Parser.Lines(text) == infos
    ensures Parser.ParseText(text) == Parser.Resolve(Parser.Emitted(infos, 0), Parser.Labels(infos, 0))
  {
  }

  // ---- Facts about the literals, one per lemma ----

  lemma FirstLineJoined() ensures FirstLine == "X" + ":" + " #" {}
  lemma SecondLineJoined() ensures SecondLine == "L" + ":" + (" " + BranchPart) {}
  lemma NoColonInNames() ensures ':' !in "X" && ':' !in "L" {}
  lemma BranchPartJoined1() ensures "R2, L" == "R2," + (" " + "L") {}
  lemma BranchPartJoined2() ensures "R1, R2, L" == "R1," + (" " + "R2, L") {}
  lemma BranchPartJoined3() ensures BranchPart == "BEQ" + (" " + "R1, R2, L") {}
  lemma BranchWordsAreWords() ensures Text.IsWord("R2,") && Text.IsWord("R1,") && Text.IsWord("BEQ") && Text.IsWord("L") {}
  lemma BranchPartShape() ensures BranchPart != [] && '#' !in BranchPart && BranchPart[0] == 'B' {}
  lemma TrimmedNames() ensures Text.Trim("X") == "X" && Text.Trim("L") == "L" { Text.TrimOfTrimmed("X"); Text.TrimOfTrimmed("L"); }

  lemma TrimmedHash() ensures Text.Trim(" #") == "#" { Text.TrimAfterBlank("#"); }

  lemma TrimmedBranchPart() ensures Text.Trim(" " + BranchPart) == BranchPart
  {
    BranchPartShape();
    assert BranchPart[|BranchPart| - 1] == 'L';
    Text.TrimAfterBlank(BranchPart);
  }

  lemma SkewExampleBreak()
    ensures Text.IndexOf(SkewExample, '\n') == Some(4)
  {
    assert SkewExample[4] == '\n';
    assert SkewExample[..4] == FirstLine;
    assert '\n' !in FirstLine;
  }

  lemma SkewExampleSplit()
    ensures Text.SplitOn(SkewExample, '\n') == [FirstLine, SecondLine]
  {
    SkewExampleBreak();
    assert SkewExample[..4] == FirstLine;
    assert SkewExample[5..] == SecondLine;
    assert '\n' !in SecondLine;
  }

  lemma SkewExampleLines()
    ensures Parser.CleanLines(Text.SplitOn(SkewExample, '\n')) == [FirstLine, SecondLine]
  {
    SkewExampleSplit();
    ExampleLinesClean();
    CleanPair(FirstLine, SecondLine);
  }

  lemma ExampleLinesClean()
    ensures Parser.Kept(FirstLine) && Parser.IsTrimmed(FirstLine)
    ensures Parser.Kept(SecondLine) && Parser.IsTrimmed(SecondLine)
  {
    assert FirstLine[0] == 'X' && FirstLine[3] == '#';
    assert SecondLine[0] == 'L' && SecondLine[15] == 'L';
  }

  // ---- The two lines, analysed ----

  lemma CommentOnlyPart()
    ensures Parser.ParseInstruction("#", 0).None?
  {
    assert Text.IndexOf("#", '#') == Some(0);
    assert "#"[..0] == "";
    Text.TrimOfTrimmed("");
  }

  lemma FirstLineSplit()
    ensures Parser.SplitLabel(FirstLine) == Parser.Split(Some("X"), "#")
  {
    FirstLineJoined();
    NoColonInNames();
    TrimmedNames();
    TrimmedHash();
    SplitLabelled(FirstLine, "X", " #", "X", "#");
  }

  lemma FirstLineInfo()
    ensures Parser.Analyze(FirstLine) == Parser.LineInfo(Some("X"), "#", None)
  {
    FirstLineSplit();
    AnalyzeLabelled(FirstLine, "X", "#");
    CommentOnlyPart();
  }

  lemma WordsOfL() ensures Text.Words("L") == ["L"] { BranchWordsAreWords(); WordsLast("L"); }

  lemma WordsOfR2() ensures Text.Words("R2, L") == ["R2,", "L"]
  {
    WordsOfL();
    BranchWordsAreWords();
    BranchPartJoined1();
    WordsStep("R2, L", "R2,", "L");
    Cons2("R2,", "L");
  }

  lemma WordsOfR1() ensures Text.Words("R1, R2, L") == ["R1,", "R2,", "L"]
  {
    WordsOfR2();
    BranchWordsAreWords();
    BranchPartJoined2();
    WordsStep("R1, R2, L", "R1,", "R2, L");
    Cons3("R1,", "R2,", "L");
  }

  lemma BranchPartWords() ensures Text.SplitWhitespace(BranchPart) == ["BEQ", "R1,", "R2,", "L"]
  {
    WordsOfR1();
    BranchWordsAreWords();
    BranchPartJoined3();
    WordsStep(BranchPart, "BEQ", "R1, R2, L");
    Cons4("BEQ", "R1,", "R2,", "L");
    BranchPartShape();
  }

  lemma BeqIsBranch() ensures Opcodes.CategoryOf(Opcodes.BEQ) == Opcodes.Branch {}

  lemma BeqMnemonic() ensures Text.Upper("BEQ") == Opcodes.Mnemonic(Opcodes.BEQ)
  {
    Opcodes.UpperMnemonic(Opcodes.BEQ);
  }

  lemma BranchPartParses()
    ensures var r := Parser.ParseInstruction(BranchPart, 0);
            r.Some? && r.value.op == Opcodes.BEQ && r.value.branchTarget == Some("L")
  {
    BranchPartShape();
    BranchPartWords();
    BeqMnemonic();
    assert BranchPart != [] && '#' !in BranchPart;
    assert Text.SplitWhitespace(BranchPart) == ["BEQ", "R1,", "R2,", "L"];
    assert Text.Upper("BEQ") == Opcodes.Mnemonic(Opcodes.BEQ);
    BeqIsBranch();
    ParseBranchWords(BranchPart, "BEQ", "R1,", "R2,", "L", Opcodes.BEQ, 0);
    TrimmedNames();
  }

  lemma SecondLineSplit()
    ensures Parser.SplitLabel(SecondLine) == Parser.Split(Some("L"), BranchPart)
  {
    SecondLineJoined();
    NoColonInNames();
    TrimmedNames();
    TrimmedBranchPart();
    SplitLabelled(SecondLine, "L", " " + BranchPart, "L", BranchPart);
  }

  lemma SecondLineInfo()
    ensures var info := Parser.Analyze(SecondLine);
            && info.tag == Some("L") && info.part == BranchPart && info.parsed.Some?
            && info.parsed.value.op == Opcodes.BEQ && info.parsed.value.branchTarget == Some("L")
  {
    SecondLineSplit();
    BranchPartShape();
    AnalyzeLabelled(SecondLine, "L", BranchPart);
    BranchPartParses();
  }

  lemma SkewExampleInfos()
    ensures Parser.Lines(SkewExample) == [Parser.LineInfo(Some("X"), "#", None), Parser.Analyze(SecondLine)]
  {
    SkewExampleLines();
    LinesOf(SkewExample, [FirstLine, SecondLine]);
    FirstLineInfo();
    AnalyzePair(FirstLine, SecondLine, Parser.LineInfo(Some("X"), "#", None), Parser.Analyze(SecondLine));
  }

  // ---- The program, parsed both ways ----

  /** As written, label `L` is placed at 4 because the comment-only line `X: #` advanced the
      label pass; the branch `L` labels is at 0, so it is resolved to offset 0 and jumps to
      address 4, past the end of the program, instead of to itself. */
  lemma SkewAsWritten()
    ensures var p := Parser.ParseTextAsWritten(SkewExample);
            && |p| == 1 && p[0].op == Opcodes.BEQ && p[0].address == 0 && p[0].imm == 0
            && p[0].address + 4 + 4 * p[0].imm == 4
    ensures var m := Parser.LabelsAsWritten(Parser.Lines(SkewExample), 0);
            "L" in m && m["L"] == 4
  {
    SkewExampleInfos();
    SecondLineInfo();
    TrimmedNames();
    BeqIsBranch();
    var second := Parser.Analyze(SecondLine);
    SkewOn("X", "#", "L", second);
    AsWrittenOf(SkewExample, [Parser.LineInfo(Some("X"), "#", None), second]);
  }

  /** With the label pass corrected, `L` marks the branch itself at address 0, and the branch
      is resolved to offset -1: from the slot after it back onto itself. */
  lemma SkewCorrected()
    ensures var p := Parser.ParseText(SkewExample);
            && |p| == 1 && p[0].op == Opcodes.BEQ && p[0].address == 0 && p[0].imm == -1
            && p[0].address + 4 + 4 * p[0].imm == 0
    ensures var m := Parser.Labels(Parser.Lines(SkewExample), 0);
            "L" in m && m["L"] == 0
  {
    SkewExampleInfos();
    SecondLineInfo();
    TrimmedNames();
    BeqIsBranch();
    var second := Parser.Analyze(SecondLine);
    SkewOn("X", "#", "L", second);
    CorrectedOf(SkewExample, [Parser.LineInfo(Some("X"), "#", None), second]);
  }
}
