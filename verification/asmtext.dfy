/** The emitted assembly read back. The text `Program::emit()` produces is a
    sequence of newline-terminated lines: the `.globl` directive, the label,
    one indented line per instruction, an empty line and the stack note.
    Reading the lines back recovers the program, so `emit()` loses nothing. */
module AsmText {
  import opened Results
  import opened Text
  import opened Assembly
  import Tokens
  import opened Lines

  predicate NotComma(c: char) {
    c != ','
  }

  // ---------------------------------------------------------------------------
  // The lines of an emitted program

  /** Names that keep the emitted text unambiguous: no newline (a name sits
      on one line) and no comma (a register name sits before `, `). Every
      identifier qualifies. */
  predicate PlainName(n: string) {
    forall i :: 0 <= i < |n| ==> n[i] != '\n' && n[i] != ','
  }

  predicate PlainOperand(o: Operand) {
    o.Register? ==> PlainName(o.name)
  }

  predicate PlainInstruction(i: Instruction) {
    i.Mov? ==> PlainOperand(i.src) && PlainOperand(i.dst)
  }

  predicate PlainProgram(p: Program) {
    && PlainName(p.func.name)
    && forall i :: 0 <= i < |p.func.instructions| ==> PlainInstruction(p.func.instructions[i])
  }

  lemma IdentifierIsPlain(n: string)
    requires Tokens.IsIdentifierText(n)
    ensures PlainName(n)
  {
  }

  function InstructionLine(i: Instruction): string
  {
    "    " + EmitInstruction(i)
  }

  function InstructionLines(instrs: seq<Instruction>): (r: seq<string>)
    ensures |r| == |instrs|
    ensures forall i :: 0 <= i < |r| ==> r[i] == InstructionLine(instrs[i])
  {
    seq(|instrs|, i requires 0 <= i < |instrs| => InstructionLine(instrs[i]))
  }

  /** The lines of `Program::emit()`, without their newlines. */
  function ProgramLines(p: Program): (r: seq<string>)
    ensures |r| == 4 + |p.func.instructions|
  {
    FunctionLines(p.func) + ["", StackNote]
  }

  lemma {:induction false} EmitInstructionsLines(instrs: seq<Instruction>)
    ensures EmitInstructions(instrs) == JoinLines(InstructionLines(instrs))
  {
    if |instrs| > 0 {
      var ls := InstructionLines(instrs);
      assert ls[1..] == InstructionLines(instrs[1..]);
      EmitInstructionsLines(instrs[1..]);
    }
  }

  /** The lines of `Function::emit()`, without their newlines. */
  function FunctionLines(f: Function): (r: seq<string>)
    ensures |r| == 2 + |f.instructions|
  {
    [".globl " + f.name, f.name + ":"] + InstructionLines(f.instructions)
  }

  /** The emitted function is exactly its lines, each ended by a newline. */
  lemma EmitFunctionLines(f: Function)
    ensures EmitFunction(f) == JoinLines(FunctionLines(f))
  {
    var head := [".globl " + f.name, f.name + ":"];
    EmitInstructionsLines(f.instructions);
    JoinLinesAppend(head, InstructionLines(f.instructions));
    JoinTwo(".globl " + f.name, f.name + ":");
    AppendNewline(f.name, ":");
  }

  /** The emitted program is exactly its lines, each ended by a newline. */
  lemma EmitProgramLines(p: Program)
    ensures EmitProgram(p) == JoinLines(ProgramLines(p))
  {
    var tail := ["", StackNote];
    EmitFunctionLines(p.func);
    JoinLinesAppend(FunctionLines(p.func), tail);
    JoinTwo("", StackNote);
  }

  // ---------------------------------------------------------------------------
  // Reading the lines back

  function DecodeOperand(t: string): Option<Operand>
  {
    if |t| == 0 then None
    else if t[0] == '$' then
      match StoI(t[1..])
      case Ok(v) => Some(Imm(v))
      case Err(_) => None
    else if t[0] == '%' then Some(Register(t[1..]))
    else None
  }

  function DecodeInstruction(t: string): Option<Instruction>
  {
    if t == "ret" then Some(Ret)
    else if |t| >= 5 && t[..5] == "movl " then
      var body := t[5..];
      var k := SpanEnd(body, 0, NotComma);
      if k + 2 <= |body| && body[k + 1] == ' ' then
        match (DecodeOperand(body[..k]), DecodeOperand(body[k + 2..]))
        case (Some(s), Some(d)) => Some(Mov(s, d))
        case _ => None
      else None
    else None
  }

  function DecodeInstructions(ls: seq<string>): Option<seq<Instruction>>
  {
    if |ls| == 0 then Some([])
    else if |ls[0]| >= 4 && ls[0][..4] == "    " then
      match (DecodeInstruction(ls[0][4..]), DecodeInstructions(ls[1..]))
      case (Some(i), Some(rest)) => Some([i] + rest)
      case _ => None
    else None
  }

  function DecodeProgramLines(ls: seq<string>): Option<Program>
  {
    if |ls| >= 4 && |ls[0]| >= 7 && ls[0][..7] == ".globl " && ls[|ls| - 2] == "" && ls[|ls| - 1] == StackNote then
      var name := ls[0][7..];
      if ls[1] == name + ":" then
        match DecodeInstructions(ls[2..|ls| - 2])
        case Some(instrs) => Some(Program(Function(name, instrs)))
        case None => None
      else None
    else None
  }

  /** Reads an emitted program back from its text. */
  function DecodeProgram(text: string): Option<Program>
  {
    match SplitLines(text)
    case Some(ls) => DecodeProgramLines(ls)
    case None => None
  }

  // ---------------------------------------------------------------------------
  // Round trip

  lemma DecodeEmitOperand(o: Operand)
    requires PlainOperand(o)
    ensures DecodeOperand(EmitOperand(o)) == Some(o)
  {
    if o.Imm? {
      IntToStringRoundTrip(o.value);
    }
  }

  /** The text of an operand holds no comma. */
  lemma OperandHasNoComma(o: Operand)
    requires PlainOperand(o)
    ensures forall i :: 0 <= i < |EmitOperand(o)| ==> NotComma(EmitOperand(o)[i])
  {
    var t := EmitOperand(o);
    if o.Imm? {
      var v: int := o.value;
      var m := NatToString(if v < 0 then -v else v);
      assert t == "$" + (if v < 0 then "-" + m else m);
      forall i | 0 <= i < |t| ensures NotComma(t[i]) {
        if v < 0 && i >= 2 {
          assert t[i] == m[i - 2];
        } else if v >= 0 && i >= 1 {
          assert t[i] == m[i - 1];
        }
      }
    }
  }

  /** `a, b` with no comma in `a` splits at its first comma. */
  lemma SplitAtComma(a: string, b: string)
    requires forall j :: 0 <= j < |a| ==> NotComma(a[j])
    ensures var body := a + (", " + b);
      SpanEnd(body, 0, NotComma) == |a| && body[..|a|] == a && body[|a| + 1] == ' ' && body[|a| + 2..] == b
  {
    var body := a + (", " + b);
    forall j | 0 <= j < |a| ensures NotComma(body[j]) {
      assert body[j] == a[j];
    }
    SpanEndUnique(body, 0, NotComma, |a|);
  }

  /** A `movl` line whose two operand texts decode. */
  lemma DecodeMov(a: string, b: string, src: Operand, dst: Operand)
    requires forall j :: 0 <= j < |a| ==> NotComma(a[j])
    requires DecodeOperand(a) == Some(src) && DecodeOperand(b) == Some(dst)
    ensures DecodeInstruction("movl " + (a + (", " + b))) == Some(Mov(src, dst))
  {
    var t := "movl " + (a + (", " + b));
    assert t[0] == 'm';
    assert t != "ret";
    assert t[..5] == "movl " && t[5..] == a + (", " + b);
    SplitAtComma(a, b);
  }

  lemma DecodeEmitInstruction(i: Instruction)
    requires PlainInstruction(i)
    ensures DecodeInstruction(EmitInstruction(i)) == Some(i)
  {
    if i.Mov? {
      var a, b := EmitOperand(i.src), EmitOperand(i.dst);
      assert EmitInstruction(i) == "movl " + (a + (", " + b));
      OperandHasNoComma(i.src);
      DecodeEmitOperand(i.src);
      DecodeEmitOperand(i.dst);
      DecodeMov(a, b, i.src, i.dst);
    }
  }

  lemma {:induction false} DecodeEmitInstructions(instrs: seq<Instruction>)
    requires forall i :: 0 <= i < |instrs| ==> PlainInstruction(instrs[i])
    ensures DecodeInstructions(InstructionLines(instrs)) == Some(instrs)
  {
    if |instrs| > 0 {
      var ls := InstructionLines(instrs);
      assert ls[0][..4] == "    " && ls[0][4..] == EmitInstruction(instrs[0]);
      DecodeEmitInstruction(instrs[0]);
      assert ls[1..] == InstructionLines(instrs[1..]);
      DecodeEmitInstructions(instrs[1..]);
      assert [instrs[0]] + instrs[1..] == instrs;
    }
  }

  /** Every line of an emitted program is free of newlines. */
  lemma ProgramLinesPlain(p: Program)
    requires PlainProgram(p)
    ensures forall i :: 0 <= i < |ProgramLines(p)| ==> NoNewline(ProgramLines(p)[i])
  {
    var f := p.func;
    var heads := [".globl " + f.name, f.name + ":"];
    var body := InstructionLines(f.instructions);
    var tail := ["", StackNote];
    var ls := ProgramLines(p);
    assert ls == heads + body + tail;
    NoNewlineConcat(".globl ", f.name);
    NoNewlineConcat(f.name, ":");
    forall i | 0 <= i < |ls| ensures NoNewline(ls[i]) {
      if i < 2 {
        assert ls[i] == heads[i];
      } else if i < 2 + |body| {
        assert ls[i] == body[i - 2];
        InstructionLinePlain(f.instructions[i - 2]);
      } else {
        assert ls[i] == tail[i - 2 - |body|];
      }
    }
  }

  lemma InstructionLinePlain(i: Instruction)
    requires PlainInstruction(i)
    ensures NoNewline(InstructionLine(i))
  {
    if i.Mov? {
      OperandHasNoNewline(i.src);
      OperandHasNoNewline(i.dst);
      MovHasNoNewline(EmitOperand(i.src), EmitOperand(i.dst));
    }
    NoNewlineConcat("    ", EmitInstruction(i));
  }

  lemma MovHasNoNewline(a: string, b: string)
    requires NoNewline(a) && NoNewline(b)
    ensures NoNewline("movl " + a + ", " + b)
  {
    NoNewlineConcat("movl ", a);
    NoNewlineConcat("movl " + a, ", ");
    NoNewlineConcat("movl " + a + ", ", b);
  }

  lemma OperandHasNoNewline(o: Operand)
    requires PlainOperand(o)
    ensures NoNewline(EmitOperand(o))
  {
    OperandHasNoComma(o);
    var t := EmitOperand(o);
    forall i | 0 <= i < |t| ensures t[i] != '\n' {
      if o.Imm? && i > 0 {
        assert NotComma(t[i]);
      }
    }
  }

  /** Reading the emitted text of a program gives the program back. */
  lemma DecodeEmitProgram(p: Program)
    requires PlainProgram(p)
    ensures DecodeProgram(EmitProgram(p)) == Some(p)
  {
    var ls := ProgramLines(p);
    EmitProgramLines(p);
    ProgramLinesPlain(p);
    SplitJoin(ls);
    var f := p.func;
    assert ls[0][..7] == ".globl " && ls[0][7..] == f.name;
    assert ls[2..|ls| - 2] == InstructionLines(f.instructions);
    DecodeEmitInstructions(f.instructions);
  }

  /** The emitted text has one line per instruction plus four. */
  lemma EmitProgramLineCount(p: Program)
    requires PlainProgram(p)
    ensures SplitLines(EmitProgram(p)).Some?
    ensures |SplitLines(EmitProgram(p)).value| == 4 + |p.func.instructions|
  {
    EmitProgramLines(p);
    ProgramLinesPlain(p);
    SplitJoin(ProgramLines(p));
  }
}
