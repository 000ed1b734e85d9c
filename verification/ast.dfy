/** The source AST (ast.h) of the accepted C subset
      int <name>(void) { return <constant>; }
    with its debug dump `prettyPrint()` and the lowering `codegen()` each
    node carries. The C++ class hierarchy with `unique_ptr` children becomes
    one datatype per node kind. */
module Ast {
  import opened Results
  import opened Text
  import Asm = Assembly
  import Machine

  datatype Exp = Constant(value: Int32)

  datatype Statement = Return(exp: Exp)

  datatype Function = Function(name: string, body: Statement)

  datatype Program = Program(func: Function)

  /** What the program means: the value `main` returns. */
  function Eval(p: Program): Int32
  {
    p.func.body.exp.value
  }

  // ---------------------------------------------------------------------------
  // prettyPrint()

  function PrettyExp(e: Exp, indent: nat): (r: string)
    ensures HasIndent(r, indent)
  {
    Indent(indent) + "Constant(" + IntToString(e.value) + ")"
  }

  function PrettyStatement(s: Statement, indent: nat): (r: string)
    ensures HasIndent(r, indent)
  {
    Indent(indent) + "Return(\n" + PrettyExp(s.exp, indent + 1) + "\n" + Indent(indent) + ")"
  }

  function PrettyFunction(f: Function, indent: nat): (r: string)
    ensures HasIndent(r, indent)
  {
    Indent(indent) + "Function(\n"
    + Indent(indent + 1) + "name=\"" + f.name + "\",\n"
    + Indent(indent + 1) + "body=\n"
    + PrettyStatement(f.body, indent + 2) + "\n"
    + Indent(indent) + ")"
  }

  function PrettyProgram(p: Program, indent: nat): (r: string)
    ensures HasIndent(r, indent)
  {
    Indent(indent) + "Program(\n" + PrettyFunction(p.func, indent + 1) + "\n" + Indent(indent) + ")"
  }

  // ---------------------------------------------------------------------------
  // codegen(): each node lowers itself to an `AsmNode`, and the parent casts
  // the child's node down to the kind it needs.

  datatype LoweringError =
    | NotAnOperand     // `Return::codegen` throws "Expression did not generate an Operand"
    | NullInstruction  // `Function::codegen` stores the null pointer of a failed cast
    | NullFunction     // `Program::codegen` stores the null pointer of a failed cast

  function ExpCodegen(e: Exp): (r: Asm.AsmNode)
    ensures r.OperandNode?
    ensures Machine.OperandValue(r.operand, map[]) == Some(e.value)
  {
    Asm.OperandNode(Asm.Imm(e.value))
  }

  /** `Return(e)` moves the value of `e` into `%eax`. */
  function StatementCodegen(s: Statement): (r: Result<Asm.AsmNode, LoweringError>)
    ensures r.Ok? && r.value.InstructionNode?
    ensures Machine.Execute([r.value.instruction, Asm.Ret], map[]) == Some(s.exp.value)
  {
    match ExpCodegen(s.exp)
    case OperandNode(o) => Ok(Asm.InstructionNode(Asm.Mov(o, Asm.Register("eax"))))
    case _ => Err(NotAnOperand)
  }

  /** The function keeps its name; its body is the lowered statement
      followed by `ret`. */
  function FunctionCodegen(f: Function): (r: Result<Asm.AsmNode, LoweringError>)
    ensures r.Ok? && r.value.FunctionNode?
    ensures r.value.func.name == f.name
    ensures |r.value.func.instructions| == 2 && r.value.func.instructions[1] == Asm.Ret
    ensures r.value.func.instructions[0].Mov? && r.value.func.instructions[0].dst == Asm.Register("eax")
    ensures Machine.Execute(r.value.func.instructions, map[]) == Some(f.body.exp.value)
  {
    match StatementCodegen(f.body)
    case Err(e) => Err(e)
    case Ok(InstructionNode(i)) => Ok(Asm.FunctionNode(Asm.Function(f.name, [i, Asm.Ret])))
    case Ok(_) => Err(NullInstruction)
  }

  function ProgramCodegen(p: Program): (r: Result<Asm.AsmNode, LoweringError>)
    ensures r.Ok? && r.value.ProgramNode?
    ensures r.value.program.func.name == p.func.name
    ensures Machine.Run(r.value.program) == Some(Eval(p))
  {
    match FunctionCodegen(p.func)
    case Err(e) => Err(e)
    case Ok(FunctionNode(g)) => Ok(Asm.ProgramNode(Asm.Program(g)))
    case Ok(_) => Err(NullFunction)
  }
}
