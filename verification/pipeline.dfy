/** The compiler's stages in the order the driver runs them (lexer, parser,
    code generation, emission), as one function from source text to
    assembly text, and what holds of the whole. */
module Pipeline {
  import opened Results
  import opened Text
  import opened Tokens
  import opened Lexer
  import opened Layouts
  import Parser
  import Ast
  import Asm = Assembly
  import AsmText
  import Lines
  import Machine
  import CodeGen

  /** The stage that failed, with its error. */
  datatype CompileError =
    | LexFailure(lex: LexError)
    | ParseFailure(parse: Parser.Failure)
    | CodeGenFailure(lowering: Ast.LoweringError)

  /** The stages up to the assembly AST. */
  function Lower(src: string): (r: Result<Asm.Program, CompileError>)
  {
    match Tokenize(src)
    case Err(e) => Err(LexFailure(e))
    case Ok(toks) =>
      match Parser.Parse(toks)
      case Err(e) => Err(ParseFailure(e))
      case Ok(ast) =>
        match CodeGen.Generate(ast)
        case Err(e) => Err(CodeGenFailure(e))
        case Ok(asm) => Ok(asm)
  }

  /** Source text to the text of the `.s` file. */
  function Compile(src: string): (r: Result<string, CompileError>)
  {
    match Lower(src)
    case Err(e) => Err(e)
    case Ok(asm) => Ok(Asm.EmitProgram(asm))
  }

  // ---------------------------------------------------------------------------
  // What a successful compilation means

  /** The compiler accepts a text exactly when it lexes into the ten tokens
      of the grammar and the constant fits an `int`. */
  lemma CompileAccepts(src: string)
    ensures Compile(src).Ok? <==>
      && Tokenize(src).Ok?
      && |Tokenize(src).value| == |Parser.Shape|
      && Parser.KindsMatchUpTo(Tokenize(src).value, |Parser.Shape|)
      && Parser.ConstantFits(Tokenize(src).value)
  {
    if Tokenize(src).Ok? {
      Parser.ParseAccepts(Tokenize(src).value);
    }
  }

  /** Lowering an identifier-named program gives assembly whose names keep
      the emitted text unambiguous. */
  lemma GeneratedIsPlain(ast: Ast.Program)
    requires AsmText.PlainName(ast.func.name)
    ensures AsmText.PlainProgram(CodeGen.Generate(ast).value)
  {
    var v := ast.func.body.exp.value;
    assert CodeGen.Generate(ast).value.func.instructions == [Asm.Mov(Asm.Imm(v), Asm.Register("eax")), Asm.Ret];
  }

  /** The stages before emission succeed together, and the assembly they
      build runs to the value the source program returns. */
  lemma LowerMeaning(src: string)
    requires Lower(src).Ok?
    ensures Tokenize(src).Ok? && Parser.Parse(Tokenize(src).value).Ok?
    ensures AsmText.PlainProgram(Lower(src).value)
    ensures Machine.Run(Lower(src).value) == Some(Ast.Eval(Parser.Parse(Tokenize(src).value).value))
  {
    var toks := Tokenize(src).value;
    var ast := Parser.Parse(toks).value;
    Parser.ParseAccepts(toks);
    TokenizeFromWellFormed(src, 0);
    assert WellFormed(toks[Parser.NameIndex]);
    assert ast.func.name == toks[Parser.NameIndex].text;
    AsmText.IdentifierIsPlain(ast.func.name);
    GeneratedIsPlain(ast);
  }

  /** The text the compiler writes, read back and run, returns the value
      the source program returns. */
  lemma CompileMeaning(src: string)
    requires Compile(src).Ok?
    ensures Tokenize(src).Ok? && Parser.Parse(Tokenize(src).value).Ok?
    ensures var p := AsmText.DecodeProgram(Compile(src).value);
      p.Some? && Machine.Run(p.value) == Some(Ast.Eval(Parser.Parse(Tokenize(src).value).value))
  {
    LowerMeaning(src);
    AsmText.DecodeEmitProgram(Lower(src).value);
  }

  /** The ten tokens of `int <name>(void) { return <digits>; }`. */
  function ShapeTokens(name: string, digits: string): (r: seq<Token>)
    ensures |r| == |Parser.Shape| && Parser.KindsMatchUpTo(r, |Parser.Shape|)
  {
    [Token(IntKeyword, "int"), Token(Identifier, name), Token(OpenParen, "("), Token(VoidKeyword, "void"),
     Token(CloseParen, ")"), Token(OpenBrace, "{"), Token(ReturnKeyword, "return"), Token(Constant, digits),
     Token(Semicolon, ";"), Token(CloseBrace, "}")]
  }

  /** The lines of the assembly for `int <name>(void) { return <v>; }`. */
  function ExpectedLines(name: string, v: Int32): seq<string>
  {
    [".globl " + name, name + ":", "    movl $" + IntToString(v) + ", %eax", "    ret", "", Asm.StackNote]
  }

  lemma MovLine(d: string)
    ensures "    " + ("movl " + ("$" + d) + ", " + "%eax") == "    movl $" + d + ", %eax"
  {
  }

  /** What the compiler writes for a function returning `v`. */
  lemma EmitReturnProgram(name: string, v: Int32)
    ensures Asm.EmitProgram(Asm.Program(Asm.Function(name, [Asm.Mov(Asm.Imm(v), Asm.Register("eax")), Asm.Ret])))
         == Lines.JoinLines(ExpectedLines(name, v))
  {
    var p := Asm.Program(Asm.Function(name, [Asm.Mov(Asm.Imm(v), Asm.Register("eax")), Asm.Ret]));
    AsmText.EmitProgramLines(p);
    MovLine(IntToString(v));
    var ls := AsmText.InstructionLines(p.func.instructions);
    assert Asm.EmitOperand(Asm.Register("eax")) == "%eax";
    assert Asm.EmitOperand(Asm.Imm(v)) == "$" + IntToString(v);
    assert ls[0] == "    " + ("movl " + ("$" + IntToString(v)) + ", " + "%eax");
    assert ls[1] == "    ret";
    assert ls == ["    movl $" + IntToString(v) + ", %eax", "    ret"];
    assert AsmText.ProgramLines(p) == [".globl " + name, name + ":"] + ls + ["", Asm.StackNote];
    assert AsmText.ProgramLines(p) == ExpectedLines(name, v);
  }

  /** Any layout of the grammar's tokens, with white space and comments
      between them, compiles to the expected text. */
  lemma CompileLayout(name: string, digits: string, seps: seq<seq<Piece>>)
    requires ValidLayout(ShapeTokens(name, digits), seps)
    requires 1 <= |digits| && AllDigits(digits) && DecimalValue(digits) <= MaxInt32
    ensures Compile(Layout(ShapeTokens(name, digits), seps)).Ok?
    ensures Compile(Layout(ShapeTokens(name, digits), seps)).value == Lines.JoinLines(ExpectedLines(name, DecimalValue(digits)))
  {
    LowerLayout(name, digits, seps);
    EmitReturnProgram(name, DecimalValue(digits));
  }

  /** The assembly AST built from such a layout: a move of the constant's
      value into `%eax`, then `ret`. */
  lemma LowerLayout(name: string, digits: string, seps: seq<seq<Piece>>)
    requires ValidLayout(ShapeTokens(name, digits), seps)
    requires 1 <= |digits| && AllDigits(digits) && DecimalValue(digits) <= MaxInt32
    ensures Lower(Layout(ShapeTokens(name, digits), seps)).Ok?
    ensures Lower(Layout(ShapeTokens(name, digits), seps)).value
         == Asm.Program(Asm.Function(name, [Asm.Mov(Asm.Imm(DecimalValue(digits)), Asm.Register("eax")), Asm.Ret]))
  {
    var toks := ShapeTokens(name, digits);
    TokenizeRoundTrip(toks, seps);
    StoIOfDigits(digits);
    Parser.ParseAccepts(toks);
  }
}
