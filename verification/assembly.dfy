/** The assembly AST (assembly_ast.h): operands, instructions, one function
    and the program, with `emit()` (AT&T-syntax text for the GNU assembler)
    and `prettyPrint()` (an indented debug dump). */
module Assembly {
  import opened Results
  import opened Text

  datatype Operand =
    | Imm(value: Int32)        // an immediate `$v`
    | Register(name: string)   // a register `%name`

  datatype Instruction =
    | Mov(src: Operand, dst: Operand)   // `movl src, dst`
    | Ret                               // `ret`

  datatype Function = Function(name: string, instructions: seq<Instruction>)

  datatype Program = Program(func: Function)

  /** Any node of the assembly AST: the static type `AsmNode` the in-node
      lowering of the source AST returns, before it is cast down. */
  datatype AsmNode =
    | OperandNode(operand: Operand)
    | InstructionNode(instruction: Instruction)
    | FunctionNode(func: Function)
    | ProgramNode(program: Program)

  /** The section directive every emitted program ends with, marking the stack
      as not executable. */
  const StackNote: string := ".section .note.GNU-stack,\"\",@progbits"

  // ---------------------------------------------------------------------------
  // emit()

  function EmitOperand(o: Operand): (r: string)
    ensures 1 <= |r|
    ensures (r[0] == '$' <==> o.Imm?) && (r[0] == '%' <==> o.Register?)
    ensures o.Register? ==> r[1..] == o.name
    ensures o.Imm? ==> r[1..] == IntToString(o.value)
  {
    match o
    case Imm(v) => "$" + IntToString(v)
    case Register(n) => "%" + n
  }

  function EmitInstruction(i: Instruction): string
  {
    match i
    case Mov(s, d) => "movl " + EmitOperand(s) + ", " + EmitOperand(d)
    case Ret => "ret"
  }

  /** The body lines of a function: four spaces, the instruction, a newline. */
  function EmitInstructions(instrs: seq<Instruction>): string
  {
    if |instrs| == 0 then "" else "    " + EmitInstruction(instrs[0]) + "\n" + EmitInstructions(instrs[1..])
  }

  function EmitFunction(f: Function): string
  {
    ".globl " + f.name + "\n" + f.name + ":\n" + EmitInstructions(f.instructions)
  }

  function EmitProgram(p: Program): string
  {
    EmitFunction(p.func) + "\n" + StackNote + "\n"
  }

  // ---------------------------------------------------------------------------
  // prettyPrint()

  function PrettyOperand(o: Operand, indent: nat): (r: string)
    ensures HasIndent(r, indent)
  {
    match o
    case Imm(v) => Indent(indent) + "Imm(" + IntToString(v) + ")"
    case Register(n) => Indent(indent) + "Register(\"" + n + "\")"
  }

  function PrettyInstruction(i: Instruction, indent: nat): (r: string)
    ensures HasIndent(r, indent)
  {
    match i
    case Mov(s, d) =>
      Indent(indent) + "Mov(\n"
      + PrettyOperand(s, indent + 1) + ",\n"
      + PrettyOperand(d, indent + 1) + "\n"
      + Indent(indent) + ")"
    case Ret => Indent(indent) + "Ret()"
  }

  /** The loop of `Function::prettyPrint`: each instruction's dump followed
      by a comma and a newline. */
  function PrettyInstructions(instrs: seq<Instruction>, indent: nat): string
  {
    if |instrs| == 0 then "" else PrettyInstruction(instrs[0], indent) + ",\n" + PrettyInstructions(instrs[1..], indent)
  }

  function PrettyFunction(f: Function, indent: nat): (r: string)
    ensures HasIndent(r, indent)
  {
    Indent(indent) + "Function(\n"
    + Indent(indent + 1) + "name=\"" + f.name + "\",\n"
    + Indent(indent + 1) + "instructions=[\n"
    + PrettyInstructions(f.instructions, indent + 2)
    + Indent(indent + 1) + "]\n"
    + Indent(indent) + ")"
  }

  function PrettyProgram(p: Program, indent: nat): (r: string)
    ensures HasIndent(r, indent)
  {
    Indent(indent) + "Program(\n" + PrettyFunction(p.func, indent + 1) + "\n" + Indent(indent) + ")"
  }

  function EmitNode(n: AsmNode): string
  {
    match n
    case OperandNode(o) => EmitOperand(o)
    case InstructionNode(i) => EmitInstruction(i)
    case FunctionNode(f) => EmitFunction(f)
    case ProgramNode(p) => EmitProgram(p)
  }
}
