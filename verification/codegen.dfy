/** `CodeGen` (codegen.cpp): the lowering of the source AST to the assembly
    AST as a separate pass. It produces the same trees as the `codegen()`
    methods of the source AST. */
module CodeGen {
  import opened Results
  import opened Text
  import Asm = Assembly
  import Machine
  import opened Ast

  /** `generateExpression`: a constant becomes an immediate. The source's
      "Unsupported expression type" branch has no counterpart: `Exp` has no
      other kind of node. */
  function GenerateExpression(e: Exp): (r: Asm.Operand)
    ensures Machine.OperandValue(r, map[]) == Some(e.value)
  {
    match e
    case Constant(v) => Asm.Imm(v)
  }

  /** `generateStatement`: `return e;` becomes a move of `e` into `%eax`,
      returned under the static type `AsmNode`. */
  function GenerateStatement(s: Statement): (r: Asm.AsmNode)
    ensures r.InstructionNode? && r.instruction.Mov? && r.instruction.dst == Asm.Register("eax")
    ensures Machine.Execute([r.instruction, Asm.Ret], map[]) == Some(s.exp.value)
  {
    match s
    case Return(e) => Asm.InstructionNode(Asm.Mov(GenerateExpression(e), Asm.Register("eax")))
  }

  /** `generateFunction`: the statement's node is cast to an instruction (a
      failed cast would leave a null pointer in the list) and followed by
      `ret`. */
  function GenerateFunction(f: Function): (r: Result<Asm.Function, LoweringError>)
    ensures r.Ok?
    ensures r.value.name == f.name
    ensures |r.value.instructions| == 2 && r.value.instructions[1] == Asm.Ret
    ensures forall i :: 0 <= i < |r.value.instructions| && r.value.instructions[i].Mov? ==>
              r.value.instructions[i].dst == Asm.Register("eax")
    ensures Machine.Execute(r.value.instructions, map[]) == Some(f.body.exp.value)
  {
    match GenerateStatement(f.body)
    case InstructionNode(i) => Ok(Asm.Function(f.name, [i, Asm.Ret]))
    case _ => Err(NullInstruction)
  }

  /** `generate`: the program of the generated function. */
  function Generate(p: Program): (r: Result<Asm.Program, LoweringError>)
    ensures r.Ok? && r.value.func.name == p.func.name
    ensures Machine.Run(r.value) == Some(Eval(p))
  {
    match GenerateFunction(p.func)
    case Ok(f) => Ok(Asm.Program(f))
    case Err(e) => Err(e)
  }

  /** The separate pass and the in-node lowering build the same function. */
  lemma GenerateFunctionAgreesWithCodegen(f: Function)
    ensures FunctionCodegen(f).Ok? && GenerateFunction(f).Ok?
    ensures FunctionCodegen(f).value == Asm.FunctionNode(GenerateFunction(f).value)
  {
  }

  /** The separate pass and the in-node lowering build the same tree. */
  lemma GenerateAgreesWithCodegen(p: Program)
    ensures ProgramCodegen(p).Ok? && Generate(p).Ok?
    ensures ProgramCodegen(p).value == Asm.ProgramNode(Generate(p).value)
  {
  }
}
