/** The debug dump of the source AST (`prettyPrint()` in ast.h) read back.
    The dump of a program at indentation `n` is nine lines: the node names
    each open a line, the function's name sits in `name="..."`, the constant
    in `Constant(...)`, and each closing parenthesis has a line of its own.
    Reading those lines back gives the tree, so the dump tells every tree
    apart. */
module AstDump {
  import opened Results
  import opened Text
  import opened Lines
  import opened Ast

  // ---------------------------------------------------------------------------
  // The dump as lines

  function ExpLines(e: Exp, n: nat): seq<string>
  {
    [PrettyExp(e, n)]
  }

  function StatementLines(s: Statement, n: nat): seq<string>
  {
    [Indent(n) + "Return("] + ExpLines(s.exp, n + 1) + [Indent(n) + ")"]
  }

  function FunctionLines(f: Function, n: nat): seq<string>
  {
    [Indent(n) + "Function(", Indent(n + 1) + "name=\"" + f.name + "\",", Indent(n + 1) + "body="]
    + StatementLines(f.body, n + 2) + [Indent(n) + ")"]
  }

  function ProgramLines(p: Program, n: nat): (r: seq<string>)
    ensures |r| == 9
  {
    [Indent(n) + "Program("] + FunctionLines(p.func, n + 1) + [Indent(n) + ")"]
  }

  lemma StatementDump(s: Statement, n: nat)
    ensures PrettyStatement(s, n) + "\n" == JoinLines(StatementLines(s, n))
  {
    assert JoinLines(ExpLines(s.exp, n + 1)) == PrettyExp(s.exp, n + 1) + "\n" + JoinLines([]);
    assert "Return" + "(\n" == "Return(\n" && "Return" + "(" == "Return(";
    Block(Indent(n), "Return", PrettyExp(s.exp, n + 1), ExpLines(s.exp, n + 1));
  }

  lemma FunctionDump(f: Function, n: nat)
    ensures PrettyFunction(f, n) + "\n" == JoinLines(FunctionLines(f, n))
  {
    var heads := [Indent(n) + "Function(", Indent(n + 1) + "name=\"" + f.name + "\",", Indent(n + 1) + "body="];
    assert JoinLines(heads) == Indent(n) + "Function(\n" + Indent(n + 1) + "name=\"" + f.name + "\",\n" + Indent(n + 1) + "body=\n" by {
      FunctionHead(Indent(n), Indent(n + 1), f.name, "body=");
      assert "body=" + "\n" == "body=\n";
    }
    StatementDump(f.body, n + 2);
    Wrap(heads, PrettyStatement(f.body, n + 2), StatementLines(f.body, n + 2), Indent(n) + ")");
  }

  lemma ProgramDump(p: Program, n: nat)
    ensures PrettyProgram(p, n) + "\n" == JoinLines(ProgramLines(p, n))
  {
    var inner, innerLines := PrettyFunction(p.func, n + 1), FunctionLines(p.func, n + 1);
    FunctionDump(p.func, n + 1);
    Block(Indent(n), "Program", inner, innerLines);
    assert PrettyProgram(p, n) == Indent(n) + ("Program" + "(\n") + inner + "\n" + Indent(n) + ")" by {
      assert "Program" + "(\n" == "Program(\n";
    }
    assert ProgramLines(p, n) == [Indent(n) + ("Program" + "(")] + innerLines + [Indent(n) + ")"] by {
      assert "Program" + "(" == "Program(";
    }
  }

  // ---------------------------------------------------------------------------
  // Reading a dump back

  /** The tree of a nine-line dump at indentation `n`, if the lines have the
      shape of one. */
  function ReadLines(ls: seq<string>, n: nat): Option<Program>
  {
    if && |ls| == 9
       && ls[0] == Indent(n) + "Program("
       && ls[1] == Indent(n + 1) + "Function("
       && ls[3] == Indent(n + 2) + "body="
       && ls[4] == Indent(n + 3) + "Return("
       && ls[6] == Indent(n + 3) + ")"
       && ls[7] == Indent(n + 1) + ")"
       && ls[8] == Indent(n) + ")"
    then
      match (StripAround(ls[2], Indent(n + 2) + "name=\"", "\","), StripAround(ls[5], Indent(n + 4) + "Constant(", ")"))
      case (Some(name), Some(digits)) =>
        (match StoI(digits)
         case Ok(v) => Some(Program(Function(name, Return(Constant(v)))))
         case Err(_) => None)
      case _ => None
    else None
  }

  /** The tree a dump printed at indentation `n` shows, if it is one. */
  function ReadDump(text: string, n: nat): Option<Program>
  {
    match SplitLines(text + "\n")
    case None => None
    case Some(ls) => ReadLines(ls, n)
  }

  /** The nine lines, one by one. */
  function DumpLines(p: Program, n: nat): seq<string>
  {
    [ Indent(n) + "Program(",
      Indent(n + 1) + "Function(",
      Indent(n + 2) + "name=\"" + p.func.name + "\",",
      Indent(n + 2) + "body=",
      Indent(n + 3) + "Return(",
      Indent(n + 4) + "Constant(" + IntToString(p.func.body.exp.value) + ")",
      Indent(n + 3) + ")",
      Indent(n + 1) + ")",
      Indent(n) + ")" ]
  }

  lemma ProgramLinesFlat(p: Program, n: nat)
    ensures ProgramLines(p, n) == DumpLines(p, n)
  {
  }

  lemma DumpLinesPlain(p: Program, n: nat)
    requires NoNewline(p.func.name)
    ensures forall i :: 0 <= i < |DumpLines(p, n)| ==> NoNewline(DumpLines(p, n)[i])
  {
    var name, v := p.func.name, p.func.body.exp.value;
    IntToStringPlain(v);
    NoNewlineConcat("name=\"", name);
    NoNewlineConcat("name=\"" + name, "\",");
    NoNewlineConcat("Constant(", IntToString(v));
    NoNewlineConcat("Constant(" + IntToString(v), ")");
    IndentedNoNewline(n, "Program(");
    IndentedNoNewline(n + 1, "Function(");
    IndentedNoNewline(n + 2, "name=\"" + name + "\",");
    IndentedNoNewline(n + 2, "body=");
    IndentedNoNewline(n + 3, "Return(");
    IndentedNoNewline(n + 4, "Constant(" + IntToString(v) + ")");
    IndentedNoNewline(n + 3, ")");
    IndentedNoNewline(n + 1, ")");
    IndentedNoNewline(n, ")");
  }

  /** Reading the dump of a program gives the program back, as long as the
      function's name holds no newline (an identifier never does). */
  lemma ReadDumpOfPretty(p: Program, n: nat)
    requires NoNewline(p.func.name)
    ensures ReadDump(PrettyProgram(p, n), n).Some?
    ensures ReadDump(PrettyProgram(p, n), n).value == p
  {
    var ls := DumpLines(p, n);
    ProgramDump(p, n);
    ProgramLinesFlat(p, n);
    DumpLinesPlain(p, n);
    SplitJoin(ls);
    ReadDumpLines(p, n);
  }

  lemma ReadDumpLines(p: Program, n: nat)
    ensures ReadLines(DumpLines(p, n), n) == Some(p)
  {
    var v := p.func.body.exp.value;
    StripAroundOf(Indent(n + 2) + "name=\"", p.func.name, "\",");
    StripAroundOf(Indent(n + 4) + "Constant(", IntToString(v), ")");
    IntToStringRoundTrip(v);
  }

  /** Two programs with the same dump are the same program. */
  lemma PrettyProgramInjective(p: Program, q: Program, n: nat)
    requires NoNewline(p.func.name) && NoNewline(q.func.name)
    requires PrettyProgram(p, n) == PrettyProgram(q, n)
    ensures p == q
  {
    ReadDumpOfPretty(p, n);
    ReadDumpOfPretty(q, n);
  }
}
