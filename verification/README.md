# mcc in Dafny

A model of the in-process pipeline of `mcc`, a compiler for the C subset

    int <name>(void) { return <constant>; }

The pipeline has four stages:

1. **Lexer.** It skips white space, `//` and `/* */` comments, then takes the longest match among an identifier pattern, a constant pattern and five punctuation characters. Identifiers spelled `int`, `void` or `return` become keywords.
2. **Parser.** A recursive-descent parser builds the source AST.
3. **Lowering.** The source AST becomes an assembly AST (`movl` into `%eax`, then `ret`). This happens twice: in a separate `CodeGen` pass and in each node's own `codegen()`.
4. **Emitter.** It writes AT&T-syntax text for GNU `as`, ending with the `.note.GNU-stack` section.

Both ASTs also have an indented debug dump, `prettyPrint`.

Each stage is a pure function over `seq<char>` or `seq<Token>`. A cursor index is threaded through explicitly, and every thrown exception becomes a `Result` error value. Every operation has a partner definition. The model proves that the two agree:

| Stage | Partner | Agreement proved |
|---|---|---|
| Lexer | `Layouts.Layout`, which builds source text from tokens and separators made of white space and comments | Lexing a layout gives back exactly its tokens, and every text the lexer accepts is a layout of the tokens it returns |
| Parser | The grammar's token shape, `Parser.Shape`, and the tree it determines | `parse` succeeds exactly on that shape, and each failure has the error of the first misfit token |
| Lowering | `Machine`, a small x86 semantics | The generated function returns the source program's value in `%eax` |
| Emitter | The decoders `AsmText.DecodeProgram`, `AstDump.ReadDump` and `AsmDump.ReadDump` | Emitted assembly text and both debug dumps read back to the tree they came from |

`Pipeline.Compile` chains the stages. The end-to-end lemmas have three scopes:
- **Any accepted text:** the emitted assembly reads back and runs to the value the source returns.
- **Any layout of the grammar's tokens:** it compiles to the expected six lines.
- **`int main(void) { return 0; }`:** it compiles to exactly the text that the emitter of assembly_ast.h:111-148 writes.

Modules, one per file:

| Module | File | Contents |
|---|---|---|
| `Results` | `results.dfy` | `Result` and `Option` |
| `Text` | `text.dfy` | Character classes; 32-bit `int`; decimal rendering; `std::stoi`; indentation |
| `Tokens` | `tokens.dfy` | Token kinds and tokens |
| `Lexer` | `lexer.dfy` | |
| `Layouts` | `layout.dfy` | The lexer's round trip |
| `Parser` | `parser.dfy` | |
| `Ast` | `ast.dfy` | Source AST, its dump and its in-node lowering |
| `CodeGen` | `codegen.dfy` | |
| `Assembly` | `assembly.dfy` | Assembly AST, `emit`, its dump |
| `Machine` | `machine.dfy` | |
| `Lines` | `lines.dfy` | Splitting and joining lines |
| `AsmText` | `asmtext.dfy` | Decoder for emitted text |
| `AstDump` | `astdump.dfy` | Reader for the source-AST dump |
| `AsmDump` | `asmdump.dfy` | Reader for the assembly-AST dump |
| `Pipeline` | `pipeline.dfy` | |
| `Scenarios` | `scenarios.dfy` | The worked example |

## Model

| member | source | states |
|---|---|---|
| `Text.Indent` | ast.h:17-19 | The indentation for level n is exactly 2n spaces. |
| `Text.StoIOfDigits` | parser.cpp:41 | `stoi` of a non-empty digit string returns its decimal value when that fits a 32-bit `int`. Otherwise it fails with out-of-range. |
| `Text.StoI` | parser.cpp:41 | A successful conversion always lies in the 32-bit `int` range. |
| `Text.IntToStringRoundTrip` | assembly_ast.h:42-44 | `stoi` reads the decimal rendering of any 32-bit value back to the same value. |
| `Text.IntToStringInjective` | assembly_ast.h:42-48 | Distinct values have distinct decimal renderings. |
| `Lexer.InvalidTokenMessage` | lexer.cpp:115-116 | The invalid-token message is "Invalid token at position " followed by digits whose value is the position. |
| `Lexer.SkipLineComment` | lexer.cpp:46-51 | A `//` comment ends at the first newline after the two slashes, or at the end of input. The newline itself is not consumed. |
| `Lexer.SkipBlockComment` | lexer.cpp:53-63 | A `/*` comment ends right after the first `*/` that starts at least two characters after the opening. It fails with the unterminated-comment error exactly when there is no such `*/`, so `/*/` fails. |
| `Lexer.SkipTrivia` | lexer.cpp:28-44 | Skipping stops at the end of input or at a character that starts neither white space nor a comment. Its only error is an unterminated comment. |
| `Lexer.MatchLengthIsLongest` | lexer.cpp:94-100 | For each pattern, the scanner returns the longest length the pattern matches (with its trailing `\b`), or 0 when it does not match. |
| `Lexer.FindLongestMatch` | lexer.cpp:92-120 | A match is non-empty, inside the input, and of one of the seven patterns. A failure is the invalid-token error at the current position. |
| `Lexer.FindLongestMatchIsLongest` | lexer.cpp:103-117 | The chosen match is as long as every pattern's match. It fails exactly when no pattern matches at all. |
| `Lexer.Reclassify` | lexer.cpp:74-78 | An identifier becomes `int`, `void` or `return` exactly when its text is that word, and stays an identifier exactly when it is no keyword. Other kinds are unchanged. |
| `Lexer.NextToken` | lexer.cpp:72-81 | A token has non-empty text that is exactly the input from the current position. A failure names the current position. |
| `Lexer.NextTokenWellFormed` | lexer.cpp:72-81 | Every token the lexer returns has text that fits its kind: a keyword's own spelling, an identifier that is no keyword, digits, or the punctuation character. |
| `Lexer.IdentifierToken` | lexer.cpp:92-113 | At a letter or underscore, the token is the whole maximal run of word characters, reclassified. So `returning` is one identifier. |
| `Lexer.NextTokenFails` | lexer.cpp:92-117 | No token can be read exactly in two cases: a digit run followed by a letter or underscore (`123abc`), or a character that starts no pattern (`/`, `+`, `@`). |
| `Lexer.ScanStep` | lexer.cpp:15-20 | One round skips white space and comments and then reads one token. It finishes exactly when skipping reaches the end of input. Otherwise the token is the one read where skipping stopped, and the next round starts right after its text. It fails with the unterminated-comment error exactly when skipping does. It fails with an invalid token exactly when skipping stops inside the input at a place where no pattern matches, and the error names that place. |
| `Lexer.NextTokenEndsWord` | lexer.cpp:94-95 | A word-like token is never followed directly by a word character. |
| `Lexer.TokenizeFrom` | lexer.cpp:13-22 | Any invalid-token error names a position inside the rest of the input. At that position no white space or comment starts and no pattern matches. |
| `Lexer.TokenizeFromWellFormed` | lexer.cpp:13-22 | Every token of a successful scan has text that fits its kind. |
| `Layouts.TriviaTokenizesToNothing` | lexer.cpp:28-44 | A text made only of white space and comments lexes to no tokens. |
| `Layouts.SkipTriviaPieces` | lexer.cpp:28-51 | Everything skipping consumes is white space and comments: a run of pieces whose text is exactly the skipped input. Only a run that reaches the end of input may end in a line comment. |
| `Layouts.SkipTriviaFailure` | lexer.cpp:28-63 | Skipping fails only on a block comment that is never closed, opened right after a run of white space and comments. |
| `Layouts.SkipTriviaThrough` | lexer.cpp:28-44 | Skipping from the start of a run of white space and comments that does not end in a line comment gives the same outcome as skipping from its end, whatever follows. |
| `Layouts.UnterminatedComment` | lexer.cpp:13-22 | White space and comments, then a block comment with no closing `*/`, make lexing fail with the unterminated-comment error. |
| `Layouts.UnterminatedSlashStarSlash` | lexer.cpp:53-63 | Lexing `/*/` fails with the unterminated-comment error, since the opening star cannot close the comment. |
| `Layouts.InvalidTokenAfter` | lexer.cpp:13-22 | White space and comments, then text at which no pattern matches, make lexing fail with an invalid token at the index where that text starts. |
| `Layouts.InvalidCharacter` | lexer.cpp:115-116 | Lexing `@` fails with an invalid token at position 0. |
| `Layouts.InvalidConstant` | lexer.cpp:95 | Lexing `123abc` fails with an invalid token at position 0, since the constant pattern needs a word boundary after its digits. |
| `Layouts.TokenizeRoundTrip` | lexer.cpp:13-22 | Well-formed tokens, separated by white space and comments, lex back to exactly those tokens. The separators must be non-empty wherever two word tokens meet, and only the last may end in a line comment. |
| `Layouts.ScanIsLayout` | lexer.cpp:13-22 | A successful scan from any index reads the rest of the input as a valid layout of the tokens it returns. |
| `Layouts.TokenizeIsLayout` | lexer.cpp:13-22 | Every text the lexer accepts is a valid layout of its tokens. With `Layouts.TokenizeRoundTrip`, the accepted texts are exactly the valid layouts. |
| `Parser.KindNameInjective` | parser.cpp:69-83 | Distinct token kinds have distinct names in messages. |
| `Parser.Expect` | parser.cpp:44-52 | Succeeds exactly when the current token has the expected kind, and then advances by one. Otherwise fails with "expected K but found end of input" or "expected K but found K'". |
| `Parser.ConsumeToken` | parser.cpp:54-59 | Succeeds exactly when a token is left, returning it and advancing by one. Otherwise fails with unexpected end of input. |
| `Parser.MatchKind` | parser.cpp:61-67 | Returns true and advances by one exactly when the current token has the kind. Otherwise the position is unchanged. |
| `Parser.ExpOk` | parser.cpp:36-42 | On a constant token whose text converts, `parseExp` builds the constant with the converted value. |
| `Parser.ExpConversion` | parser.cpp:36-42 | On a constant token whose text does not convert, `parseExp` fails with the conversion error of `stoi`, which is not a `ParseError`. |
| `Parser.HeaderOk` | parser.cpp:14-23 | On the first six kinds of the grammar, the function header parses and its name is the text of the second token. |
| `Parser.StatementOk` | parser.cpp:29-34 | `return <constant> ;` parses to the return of that constant. |
| `Parser.FirstMismatch` | parser.cpp:14-34 | Finds the first index where the tokens leave the grammar's shape, if any. |
| `Parser.ParseAccepts` | parser.cpp:6-42 | `parse` succeeds exactly when the token kinds are `int`, identifier, `(`, `void`, `)`, `{`, `return`, constant, `;`, `}` and the constant fits an `int`. It then builds the tree with the second token's text as name and the constant's value. |
| `Parser.ParseFirstMismatch` | parser.cpp:14-59 | The first token that does not fit the grammar decides the error. For the name, the error reports the kind it found instead of an identifier; for the constant, the kind it found instead of a constant. Elsewhere it reports "expected K but found K'", and at end of input the end-of-input error. |
| `Parser.ParseConversionFailure` | parser.cpp:36-42 | A well-placed constant that does not fit an `int` fails with the conversion error. |
| `Parser.ParseTrailing` | parser.cpp:6-12 | Any token after the closing brace fails with "Unexpected tokens after function definition". |
| `Ast.PrettyExp` | ast.h:33-37 | The dump of a constant starts with the indentation of its level. |
| `Ast.PrettyStatement` | ast.h:55-61 | The dump of a return starts with the indentation of its level. |
| `Ast.PrettyFunction` | ast.h:86-94 | The dump of a function starts with the indentation of its level. |
| `Ast.PrettyProgram` | ast.h:113-119 | The dump of a program starts with the indentation of its level. |
| `Ast.ExpCodegen` | ast.h:39-41 | A constant lowers to an operand that denotes its value. |
| `Ast.StatementCodegen` | ast.h:63-75 | A return lowers to an instruction which, followed by `ret`, returns the returned value. The not-an-operand error is unreachable. |
| `Ast.FunctionCodegen` | ast.h:96-103 | A function lowers to a function of the same name with exactly two instructions: a `movl` into `%eax`, then `ret`. These instructions return the body's value. The null-instruction case is unreachable. |
| `Ast.ProgramCodegen` | ast.h:121-127 | A program lowers to an assembly program of the same name that runs to the program's value. The null-function case is unreachable. |
| `CodeGen.GenerateExpression` | codegen.cpp:57-62 | A constant becomes an operand that denotes its value. |
| `CodeGen.GenerateStatement` | codegen.cpp:34-49 | A return becomes a `movl` into `%eax` which, followed by `ret`, returns the value. |
| `CodeGen.GenerateFunction` | codegen.cpp:19-26 | Never fails, keeps the name, and yields exactly two instructions: the last is `ret` and every `movl` targets `%eax`. Running them returns the body's value. |
| `CodeGen.Generate` | codegen.cpp:9-11 | Never fails, keeps the function name, and the program runs to the source program's value. |
| `CodeGen.GenerateFunctionAgreesWithCodegen` | codegen.cpp:19-26 | For every function, the separate pass and the in-node `codegen()` build the same assembly function. |
| `CodeGen.GenerateAgreesWithCodegen` | codegen.cpp:9-61 | The separate pass and the in-node `codegen()` build the same assembly tree for every program. |
| `Assembly.EmitOperand` | assembly_ast.h:42-59 | An immediate is `$` followed by its decimal value. A register is `%` followed by its name. |
| `Assembly.PrettyOperand` | assembly_ast.h:46-63 | An operand's dump starts with the indentation of its level. |
| `Assembly.PrettyInstruction` | assembly_ast.h:82-103 | An instruction's dump starts with the indentation of its level. |
| `Assembly.PrettyFunction` | assembly_ast.h:121-132 | A function's dump starts with the indentation of its level. |
| `Assembly.PrettyProgram` | assembly_ast.h:150-156 | A program's dump starts with the indentation of its level. |
| `AsmText.EmitFunctionLines` | assembly_ast.h:111-119 | The function text is the lines `.globl <name>` and `<name>:`, then one four-space-indented line per instruction in order, each line ending in a newline. |
| `AsmText.EmitProgramLines` | assembly_ast.h:143-148 | The program text is the function's lines, an empty line and the `.note.GNU-stack` line. |
| `AsmText.EmitProgramLineCount` | assembly_ast.h:111-148 | The emitted text has 4 lines more than the function has instructions. |
| `AsmText.DecodeEmitProgram` | assembly_ast.h:42-148 | For names without newlines or commas, the emitted text decodes back to the program it was emitted from. |
| `AstDump.StatementDump` | ast.h:55-61 | The dump of a return is `Return(`, the constant at the next level, and `)` at the return's level, each on its own line. |
| `Lines.FunctionHead` | ast.h:88-90 | The three head lines of a function node join to the text that both dumps print before the body. |
| `AstDump.FunctionDump` | ast.h:86-94 | The dump of a function is `Function(`, the quoted name and `body=` one level deeper, the body two levels deeper, then `)`. |
| `AstDump.ProgramDump` | ast.h:113-119 | The dump of a program is `Program(`, the function one level deeper, then `)`, line by line. |
| `AstDump.ReadDumpOfPretty` | ast.h:33-119 | When the function name has no newline, the source-AST dump reads back to the program it came from. |
| `AstDump.PrettyProgramInjective` | ast.h:113-119 | Two programs whose names have no newline and whose dumps are equal are equal. |
| `AsmDump.InstructionDump` | assembly_ast.h:82-103 | A `Mov` dumps as `Mov(`, its two operands one level deeper (the first followed by a comma), then `)`. `Ret` dumps as `Ret()`. In the list each is followed by `,`. |
| `AsmDump.ListDump` | assembly_ast.h:126-128 | The instruction list dumps as each instruction's lines in order. |
| `AsmDump.FunctionDump` | assembly_ast.h:121-132 | A function dumps as `Function(`, the quoted name, `instructions=[`, the instruction lines two levels deeper, `]` and `)`. |
| `AsmDump.ProgramDump` | assembly_ast.h:150-156 | A program dumps as `Program(`, the function one level deeper, then `)`, line by line. |
| `AsmDump.ReadDumpOfPretty` | assembly_ast.h:46-156 | When the function and register names have no newline, the assembly-AST dump reads back to the program it came from. |
| `AsmDump.PrettyProgramInjective` | assembly_ast.h:150-156 | Two such programs with equal dumps are equal. |
| `Pipeline.CompileAccepts` | parser.cpp:6-42 | A source text compiles exactly when it lexes into the ten tokens of the grammar and the constant fits an `int`. |
| `Pipeline.LowerMeaning` | codegen.cpp:9-61 | For an accepted text, the generated assembly runs to the value the parsed program returns. |
| `Pipeline.CompileMeaning` | assembly_ast.h:143-148 | For an accepted text, the emitted assembly text decodes to a program that runs to the value the source program returns. |
| `Pipeline.EmitReturnProgram` | assembly_ast.h:111-148 | A function that moves v into `%eax` and returns emits `.globl`, the label, `movl $v, %eax`, `ret`, an empty line and the stack note. |
| `Pipeline.CompileLayout` | lexer.cpp:13-22 | Every layout of the grammar's tokens compiles to those six lines, whatever white space and comments separate the tokens. |
| `Scenarios.ShapeLayoutValid` | lexer.cpp:92-117 | The grammar's tokens form a valid layout under these conditions: the name is a non-keyword identifier, the constant is digits, every separator is white space and comments (only the last may end in a line comment), and `int` and `return` are each separated from the word that follows them. |
| `Scenarios.CanonicalCompiles` | parser.cpp:6-42 | `int <name>(void) { return <digits>; }` compiles to the six lines that return the digits' value. |
| `Scenarios.ReturnZero` | assembly_ast.h:143-148 | `int main(void) { return 0; }` compiles to exactly `.globl main`, `main:`, `    movl $0, %eax`, `    ret`, an empty line and `.section .note.GNU-stack,"",@progbits`, each ending in a newline. |

## Left out

- The driver (`compiler_driver.cpp`) is not part of this model: command-line handling, file I/O, running `gcc` to preprocess and assemble, and console output.
- `std::regex` is not modelled. Each pattern is a character-class scanner. `Lexer.PatternMatches` states the pattern with its trailing `\b`, and `Lexer.MatchLengthIsLongest` proves the scanner finds the longest match, which is what the greedy backtracking search returns.
- `std::isspace` is taken as the ASCII set: space, `\t`, `\n`, `\v`, `\f`, `\r`. Locales are not modelled.
- The input is a sequence of characters, but the C++ lexer reads and indexes bytes. Positions in invalid-token errors count characters, so they equal the C++ byte offsets only when the text before them is ASCII. After `/*é*/@`, for example, the model reports position 5 and the compiler reports 6. How `std::isspace` and `\w` classify bytes of 0x80 and above is not modelled either.
- `unique_ptr`, `release` and `dynamic_cast` become closed datatypes.
  - The casts that would yield a null pointer are error values, proved unreachable.
  - The "Unsupported statement/expression type" exceptions of `codegen.cpp` have no counterpart, since the datatypes have no other node kinds.
- Exception messages are modelled as error values with `Message` functions giving their text. Only the invalid-token message is proved to carry its position.
- `Machine` is the model's own reference semantics for `movl` and `ret`. It does not come from the source.
  - It stands for what the emitted code means to an x86 processor, which the compiler leaves to `gcc`.
- `Assembly.EmitNode`, the virtual `emit()` on the common base class, is modelled as a function without lemmas of its own. Its cases are the per-kind emitters, and those have lemmas.
- `Lexer.SkipTrivia`: the contract states only where skipping stops and that its one error is an unterminated comment. What is consumed is `Layouts.SkipTriviaPieces`. When skipping fails is `Layouts.SkipTriviaFailure` and `Layouts.UnterminatedComment`, which belong in the module that defines pieces.
- `Ast.PrettyExp`, `Ast.PrettyStatement`, `Ast.PrettyFunction`, `Ast.PrettyProgram`: each contract states only the leading indentation. The exact line structure is in `AstDump`.
- `Assembly.PrettyOperand`, `Assembly.PrettyInstruction`, `Assembly.PrettyFunction`, `Assembly.PrettyProgram`: each contract states only the leading indentation. The exact line structure is in `AsmDump`.
- `AsmText.DecodeEmitProgram`: stated for names without newlines and commas. Names with those characters would make the emitted text ambiguous, and the lexer never produces them.
- `AsmDump.ReadDumpOfPretty`: stated for names without newlines, for the same reason.
- `Text.StoI`: the contract states only the range of a successful result. What it returns on digit strings is `Text.StoIOfDigits`. Leading white space and a `+` sign, which no constant token contains, are modelled but have no lemma of their own.
- The values are 32-bit (`Text.Int32`). The compiler never does arithmetic on them, so there is no wrap-around to model.
