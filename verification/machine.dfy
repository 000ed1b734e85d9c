/** A small reference semantics for the emitted instructions, used to state
    what the lowering means: running the generated function returns, in
    `%eax`, the value the source program returns.

    Registers hold 32-bit values; `movl` copies its source operand into its
    destination register, `ret` ends the function with the value of `%eax`.
    Reading a register nobody wrote, moving into an immediate, and running
    off the end of the instructions all get stuck. */
module Machine {
  import opened Results
  import opened Text
  import opened Assembly

  type Registers = map<string, Int32>

  /** The value an operand denotes, if it denotes one. */
  function OperandValue(o: Operand, regs: Registers): Option<Int32>
  {
    match o
    case Imm(v) => Some(v)
    case Register(n) => if n in regs then Some(regs[n]) else None
  }

  /** Runs instructions from the first until a `ret`; the result is the
      value of `%eax` at that `ret`. */
  function Execute(instrs: seq<Instruction>, regs: Registers): Option<Int32>
  {
    if |instrs| == 0 then None
    else
      match instrs[0]
      case Ret => if "eax" in regs then Some(regs["eax"]) else None
      case Mov(src, dst) =>
        match (OperandValue(src, regs), dst)
        case (Some(v), Register(n)) => Execute(instrs[1..], regs[n := v])
        case _ => None
  }

  /** The value the program's function returns, starting from no defined
      registers. */
  function Run(p: Program): Option<Int32>
  {
    Execute(p.func.instructions, map[])
  }
}
