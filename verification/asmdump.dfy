/** The debug dump of the assembly AST (`prettyPrint()` in assembly_ast.h)
    read back. A `Mov` takes four lines (the node, its two operands, its
    closing parenthesis), a `Ret` one; `Function::prettyPrint` puts a comma
    after each instruction's dump, and the list sits between
    `instructions=[` and `]`. Reading the lines back gives the program, so
    the dump tells every program apart. */
module AsmDump {
  import opened Results
  import opened Text
  import opened Lines
  import opened Assembly

  // ---------------------------------------------------------------------------
  // The dump as lines

  /** An operand's dump without its indentation. */
  function OperandText(o: Operand): string
  {
    match o
    case Imm(v) => "Imm(" + IntToString(v) + ")"
    case Register(n) => "Register(\"" + n + "\")"
  }

  lemma PrettyOperandText(o: Operand, k: nat)
    ensures PrettyOperand(o, k) == Indent(k) + OperandText(o)
  {
  }

  /** The lines of one instruction's dump, the comma that follows it in the
      list included. */
  function InstructionLines(i: Instruction, k: nat): seq<string>
  {
    match i
    case Mov(s, d) => [Indent(k) + "Mov(", PrettyOperand(s, k + 1) + ",", PrettyOperand(d, k + 1), Indent(k) + "),"]
    case Ret => [Indent(k) + "Ret(),"]
  }

  function ListLines(instrs: seq<Instruction>, k: nat): seq<string>
  {
    if |instrs| == 0 then [] else InstructionLines(instrs[0], k) + ListLines(instrs[1..], k)
  }

  function FunctionLines(f: Function, n: nat): seq<string>
  {
    [Indent(n) + "Function(", Indent(n + 1) + "name=\"" + f.name + "\",", Indent(n + 1) + "instructions=["]
    + ListLines(f.instructions, n + 2)
    + [Indent(n + 1) + "]", Indent(n) + ")"]
  }

  function ProgramLines(p: Program, n: nat): seq<string>
  {
    [Indent(n) + "Program("] + FunctionLines(p.func, n + 1) + [Indent(n) + ")"]
  }

  lemma MovDump(a: string, b: string, c: string)
    ensures a + "Mov(\n" + b + ",\n" + c + "\n" + a + ")" + ",\n"
         == JoinLines([a + "Mov(", b + ",", c, a + "),"])
  {
    var ls := [a + "Mov(", b + ",", c, a + "),"];
    assert JoinLines(ls[3..]) == ls[3] + "\n" + JoinLines([]);
    assert JoinLines(ls[2..]) == ls[2] + "\n" + JoinLines(ls[3..]);
    assert JoinLines(ls[1..]) == ls[1] + "\n" + JoinLines(ls[2..]);
  }

  lemma InstructionDump(i: Instruction, k: nat)
    ensures PrettyInstruction(i, k) + ",\n" == JoinLines(InstructionLines(i, k))
  {
    match i
    case Mov(s, d) =>
      MovDump(Indent(k), PrettyOperand(s, k + 1), PrettyOperand(d, k + 1));
    case Ret =>
      assert JoinLines([Indent(k) + "Ret(),"]) == Indent(k) + "Ret()," + "\n" + JoinLines([]);
  }

  lemma {:induction false} ListDump(instrs: seq<Instruction>, k: nat)
    ensures PrettyInstructions(instrs, k) == JoinLines(ListLines(instrs, k))
  {
    if |instrs| > 0 {
      InstructionDump(instrs[0], k);
      ListDump(instrs[1..], k);
      JoinLinesAppend(InstructionLines(instrs[0], k), ListLines(instrs[1..], k));
    }
  }

  lemma FunctionTail(i0: string, i1: string)
    ensures JoinLines([i1 + "]", i0 + ")"]) == i1 + "]\n" + i0 + ")" + "\n"
  {
    JoinTwo(i1 + "]", i0 + ")");
  }

  lemma FunctionDump(f: Function, n: nat)
    ensures PrettyFunction(f, n) + "\n" == JoinLines(FunctionLines(f, n))
  {
    var heads := [Indent(n) + "Function(", Indent(n + 1) + "name=\"" + f.name + "\",", Indent(n + 1) + "instructions=["];
    var body := ListLines(f.instructions, n + 2);
    var tail := [Indent(n + 1) + "]", Indent(n) + ")"];
    assert JoinLines(heads) == Indent(n) + "Function(\n" + Indent(n + 1) + "name=\"" + f.name + "\",\n" + Indent(n + 1) + "instructions=[\n" by {
      FunctionHead(Indent(n), Indent(n + 1), f.name, "instructions=[");
      assert "instructions=[" + "\n" == "instructions=[\n";
    }
    ListDump(f.instructions, n + 2);
    FunctionTail(Indent(n), Indent(n + 1));
    JoinLinesAppend(heads + body, tail);
    JoinLinesAppend(heads, body);
    var x := JoinLines(heads) + JoinLines(body);
    Append5(x, Indent(n + 1), "]\n", Indent(n), ")", "\n");
  }

  lemma Append5(x: string, a: string, b: string, c: string, d: string, e: string)
    ensures x + (a + b + c + d + e) == x + a + b + c + d + e
  {
  }

  lemma ProgramDump(p: Program, n: nat)
    ensures PrettyProgram(p, n) + "\n" == JoinLines(ProgramLines(p, n))
  {
    var inner, innerLines := PrettyFunction(p.func, n + 1), FunctionLines(p.func, n + 1);
    FunctionDump(p.func, n + 1);
    Block(Indent(n), "Program", inner, innerLines);
    assert PrettyProgram(p, n) == Indent(n) + ("Program" + "(\n") + inner + "\n" + Indent(n) + ")" by {
      assert "Program" + "(\n" == "Program(\n";
    }
    assert ProgramLines(p, n) == [Indent(n) + ("Program" + "(")] + innerLines + [Indent(n) + ")"] by {
      assert "Program" + "(" == "Program(";
    }
  }

  // ---------------------------------------------------------------------------
  // Reading a dump back

  function ReadOperand(t: string): Option<Operand>
  {
    match StripAround(t, "Imm(", ")")
    case Some(digits) =>
      (match StoI(digits)
       case Ok(v) => Some(Imm(v))
       case Err(_) => None)
    case None =>
      (match StripAround(t, "Register(\"", "\")")
       case Some(name) => Some(Register(name))
       case None => None)
  }

  /** An operand on a line of its own at indentation `k`, followed by `suffix`. */
  function ReadOperandLine(line: string, k: nat, suffix: string): Option<Operand>
  {
    match StripAround(line, Indent(k), suffix)
    case Some(t) => ReadOperand(t)
    case None => None
  }

  /** The instructions of a list dumped at indentation `k`. */
  function ReadList(ls: seq<string>, k: nat): Option<seq<Instruction>>
    decreases |ls|
  {
    if |ls| == 0 then Some([])
    else if ls[0] == Indent(k) + "Ret()," then
      match ReadList(ls[1..], k)
      case Some(rest) => Some([Ret] + rest)
      case None => None
    else if |ls| >= 4 && ls[0] == Indent(k) + "Mov(" && ls[3] == Indent(k) + ")," then
      match (ReadOperandLine(ls[1], k + 1, ","), ReadOperandLine(ls[2], k + 1, ""), ReadList(ls[4..], k))
      case (Some(s), Some(d), Some(rest)) => Some([Mov(s, d)] + rest)
      case _ => None
    else None
  }

  /** The program of the lines of a dump at indentation `n`, if they have
      the shape of one. */
  function ReadLines(ls: seq<string>, n: nat): Option<Program>
  {
    if && |ls| >= 7
       && ls[0] == Indent(n) + "Program("
       && ls[1] == Indent(n + 1) + "Function("
       && ls[3] == Indent(n + 2) + "instructions=["
       && ls[|ls| - 3] == Indent(n + 2) + "]"
       && ls[|ls| - 2] == Indent(n + 1) + ")"
       && ls[|ls| - 1] == Indent(n) + ")"
    then
      match (StripAround(ls[2], Indent(n + 2) + "name=\"", "\","), ReadList(ls[4..|ls| - 3], n + 3))
      case (Some(name), Some(instrs)) => Some(Program(Function(name, instrs)))
      case _ => None
    else None
  }

  /** The program a dump printed at indentation `n` shows, if it is one. */
  function ReadDump(text: string, n: nat): Option<Program>
  {
    match SplitLines(text + "\n")
    case None => None
    case Some(ls) => ReadLines(ls, n)
  }

  lemma ReadOperandOf(o: Operand)
    ensures ReadOperand(OperandText(o)) == Some(o)
  {
    match o
    case Imm(v) =>
      StripAroundOf("Imm(", IntToString(v), ")");
      IntToStringRoundTrip(v);
    case Register(name) =>
      var t := OperandText(o);
      assert t[..4] == "Regi";
      StripAroundOf("Register(\"", name, "\")");
  }

  lemma ReadOperandLineOf(o: Operand, k: nat, suffix: string)
    ensures ReadOperandLine(PrettyOperand(o, k) + suffix, k, suffix) == Some(o)
  {
    PrettyOperandText(o, k);
    StripAroundOf(Indent(k), OperandText(o), suffix);
    ReadOperandOf(o);
  }

  /** One instruction's lines in front of lines that read back. */
  lemma ReadListCons(i: Instruction, k: nat, rest: seq<string>, instrs: seq<Instruction>)
    requires ReadList(rest, k) == Some(instrs)
    ensures ReadList(InstructionLines(i, k) + rest, k) == Some([i] + instrs)
  {
    match i
    case Ret =>
      var ls := InstructionLines(i, k) + rest;
      assert ls[1..] == rest;
    case Mov(s, d) =>
      ReadMovCons(s, d, k, rest, instrs);
  }

  lemma ReadMovCons(s: Operand, d: Operand, k: nat, rest: seq<string>, instrs: seq<Instruction>)
    requires ReadList(rest, k) == Some(instrs)
    ensures ReadList(InstructionLines(Mov(s, d), k) + rest, k) == Some([Mov(s, d)] + instrs)
  {
    var ls := InstructionLines(Mov(s, d), k) + rest;
    assert ls[4..] == rest;
    assert ls[0] != Indent(k) + "Ret(),";
    ReadOperandLineOf(s, k + 1, ",");
    ReadOperandLineOf(d, k + 1, "");
    assert PrettyOperand(d, k + 1) + "" == PrettyOperand(d, k + 1);
  }

  lemma {:induction false} ReadListOf(instrs: seq<Instruction>, k: nat)
    ensures ReadList(ListLines(instrs, k), k) == Some(instrs)
  {
    if |instrs| > 0 {
      ReadListOf(instrs[1..], k);
      ReadListCons(instrs[0], k, ListLines(instrs[1..], k), instrs[1..]);
      assert [instrs[0]] + instrs[1..] == instrs;
    }
  }

  // ---------------------------------------------------------------------------
  // The round trip

  /** No name in the program holds a newline; identifiers and the register
      names the lowering uses never do. */
  predicate Dumpable(p: Program)
  {
    && NoNewline(p.func.name)
    && forall i :: 0 <= i < |p.func.instructions| ==> DumpableInstruction(p.func.instructions[i])
  }

  predicate DumpableInstruction(i: Instruction)
  {
    i.Mov? ==> DumpableOperand(i.src) && DumpableOperand(i.dst)
  }

  predicate DumpableOperand(o: Operand)
  {
    o.Register? ==> NoNewline(o.name)
  }

  predicate AllPlain(ls: seq<string>)
  {
    forall i :: 0 <= i < |ls| ==> NoNewline(ls[i])
  }

  lemma OperandLinePlain(o: Operand, k: nat, suffix: string)
    requires DumpableOperand(o) && NoNewline(suffix)
    ensures NoNewline(PrettyOperand(o, k) + suffix)
  {
    PrettyOperandText(o, k);
    match o
    case Imm(v) =>
      IntToStringPlain(v);
      NoNewlineConcat("Imm(", IntToString(v));
      NoNewlineConcat("Imm(" + IntToString(v), ")");
    case Register(name) =>
      NoNewlineConcat("Register(\"", name);
      NoNewlineConcat("Register(\"" + name, "\")");
    IndentedNoNewline(k, OperandText(o));
    NoNewlineConcat(PrettyOperand(o, k), suffix);
  }

  lemma InstructionLinesPlain(i: Instruction, k: nat)
    requires DumpableInstruction(i)
    ensures AllPlain(InstructionLines(i, k))
  {
    match i
    case Mov(s, d) =>
      IndentedNoNewline(k, "Mov(");
      IndentedNoNewline(k, "),");
      OperandLinePlain(s, k + 1, ",");
      OperandLinePlain(d, k + 1, "");
      assert PrettyOperand(d, k + 1) + "" == PrettyOperand(d, k + 1);
    case Ret =>
      IndentedNoNewline(k, "Ret(),");
  }

  lemma {:induction false} ListLinesPlain(instrs: seq<Instruction>, k: nat)
    requires forall i :: 0 <= i < |instrs| ==> DumpableInstruction(instrs[i])
    ensures AllPlain(ListLines(instrs, k))
  {
    if |instrs| > 0 {
      InstructionLinesPlain(instrs[0], k);
      ListLinesPlain(instrs[1..], k);
      var a, b := InstructionLines(instrs[0], k), ListLines(instrs[1..], k);
      assert forall i :: 0 <= i < |a + b| ==> (a + b)[i] == if i < |a| then a[i] else b[i - |a|];
    }
  }

  function Heads(p: Program, n: nat): seq<string>
  {
    [Indent(n) + "Program(", Indent(n + 1) + "Function(", Indent(n + 2) + "name=\"" + p.func.name + "\",", Indent(n + 2) + "instructions=["]
  }

  function Tails(n: nat): seq<string>
  {
    [Indent(n + 2) + "]", Indent(n + 1) + ")", Indent(n) + ")"]
  }

  lemma ProgramLinesFlat(p: Program, n: nat)
    ensures ProgramLines(p, n) == Heads(p, n) + ListLines(p.func.instructions, n + 3) + Tails(n)
  {
  }

  lemma ProgramLinesPlain(p: Program, n: nat)
    requires Dumpable(p)
    ensures AllPlain(ProgramLines(p, n))
  {
    var hs, body, ts := Heads(p, n), ListLines(p.func.instructions, n + 3), Tails(n);
    ProgramLinesFlat(p, n);
    ListLinesPlain(p.func.instructions, n + 3);
    HeadsPlain(p, n);
    TailsPlain(n);
    AllPlainConcat(hs, body);
    AllPlainConcat(hs + body, ts);
  }

  lemma HeadsPlain(p: Program, n: nat)
    requires NoNewline(p.func.name)
    ensures AllPlain(Heads(p, n))
  {
    NoNewlineConcat("name=\"", p.func.name);
    NoNewlineConcat("name=\"" + p.func.name, "\",");
    IndentedNoNewline(n, "Program(");
    IndentedNoNewline(n + 1, "Function(");
    IndentedNoNewline(n + 2, "name=\"" + p.func.name + "\",");
    IndentedNoNewline(n + 2, "instructions=[");
  }

  lemma TailsPlain(n: nat)
    ensures AllPlain(Tails(n))
  {
    IndentedNoNewline(n + 2, "]");
    IndentedNoNewline(n + 1, ")");
    IndentedNoNewline(n, ")");
  }

  lemma AllPlainConcat(a: seq<string>, b: seq<string>)
    requires AllPlain(a) && AllPlain(b)
    ensures AllPlain(a + b)
  {
    forall i | 0 <= i < |a + b| ensures NoNewline((a + b)[i]) {
      if i >= |a| {
        assert (a + b)[i] == b[i - |a|];
      }
    }
  }

  lemma ReadProgramLines(p: Program, n: nat)
    ensures ReadLines(ProgramLines(p, n), n).Some?
    ensures ReadLines(ProgramLines(p, n), n).value == p
  {
    var hs, body, ts := Heads(p, n), ListLines(p.func.instructions, n + 3), Tails(n);
    var ls := hs + body + ts;
    ProgramLinesFlat(p, n);
    assert ls[4..|ls| - 3] == body;
    assert ls[|ls| - 3..] == ts;
    ReadListOf(p.func.instructions, n + 3);
    StripAroundOf(Indent(n + 2) + "name=\"", p.func.name, "\",");
  }

  /** Reading the dump of a program gives the program back, as long as no
      name in it holds a newline. */
  lemma ReadDumpOfPretty(p: Program, n: nat)
    requires Dumpable(p)
    ensures ReadDump(PrettyProgram(p, n), n).Some?
    ensures ReadDump(PrettyProgram(p, n), n).value == p
  {
    ProgramDump(p, n);
    ProgramLinesPlain(p, n);
    SplitJoin(ProgramLines(p, n));
    ReadProgramLines(p, n);
  }

  /** Two programs with the same dump are the same program. */
  lemma PrettyProgramInjective(p: Program, q: Program, n: nat)
    requires Dumpable(p) && Dumpable(q)
    requires PrettyProgram(p, n) == PrettyProgram(q, n)
    ensures p == q
  {
    ReadDumpOfPretty(p, n);
    ReadDumpOfPretty(q, n);
  }
}
