/** The recursive-descent parser (parser.cpp). The parser's cursor
    `m_position` is an explicit index threaded through the functions: each
    returns what it parsed together with the index after it. */
module Parser {
  import opened Results
  import opened Text
  import opened Tokens
  import Ast

  /** `tokenTypeToString`. */
  function KindName(k: TokenKind): string
  {
    match k
    case Identifier => "IDENTIFIER"
    case Constant => "CONSTANT"
    case IntKeyword => "INT"
    case VoidKeyword => "VOID"
    case ReturnKeyword => "RETURN"
    case OpenParen => "("
    case CloseParen => ")"
    case OpenBrace => "{"
    case CloseBrace => "}"
    case Semicolon => ";"
  }

  /** Distinct kinds have distinct names, so a message names its kinds
      unambiguously. */
  lemma KindNameInjective(a: TokenKind, b: TokenKind)
    requires KindName(a) == KindName(b)
    ensures a == b
  {
  }

  /** The `ParseError`s the parser throws. */
  datatype ParseError =
    | ExpectedButEnd(expected: TokenKind)
    | ExpectedButFound(expected: TokenKind, found: TokenKind)
    | UnexpectedEnd
    | ExpectedName(found: TokenKind)
    | ExpectedConstant(found: TokenKind)
    | TrailingTokens

  function Message(e: ParseError): string
  {
    match e
    case ExpectedButEnd(k) => "Expected " + KindName(k) + " but found end of input"
    case ExpectedButFound(k, f) => "Expected " + KindName(k) + " but found " + KindName(f)
    case UnexpectedEnd => "Unexpected end of input"
    case ExpectedName(f) => "Expected function name (identifier) but found " + KindName(f)
    case ExpectedConstant(f) => "Expected constant but found " + KindName(f)
    case TrailingTokens => "Unexpected tokens after function definition"
  }

  /** Everything `parse` can throw: a `ParseError`, or the exception of
      `std::stoi`, which is not a `ParseError`. */
  datatype Failure =
    | Syntax(error: ParseError)
    | Conversion(conversion: ConversionError)

  /** A cursor step whose `ParseError` propagates out of `parse`. */
  function Step<T>(r: Result<T, ParseError>): Result<T, Failure>
  {
    match r
    case Ok(v) => Ok(v)
    case Err(e) => Err(Syntax(e))
  }

  // ---------------------------------------------------------------------------
  // Cursor primitives

  /** `expect(k)`: the token at the cursor must have kind `k`. */
  function Expect(toks: seq<Token>, pos: nat, k: TokenKind): (r: Result<nat, ParseError>)
    ensures r.Ok? <==> pos < |toks| && toks[pos].kind == k
    ensures r.Ok? ==> r.value == pos + 1
    ensures r.Err? ==> r.error == if pos < |toks| then ExpectedButFound(k, toks[pos].kind) else ExpectedButEnd(k)
  {
    if pos >= |toks| then Err(ExpectedButEnd(k))
    else if toks[pos].kind != k then Err(ExpectedButFound(k, toks[pos].kind))
    else Ok(pos + 1)
  }

  /** `consumeToken`: the token at the cursor, whatever its kind. */
  function ConsumeToken(toks: seq<Token>, pos: nat): (r: Result<(Token, nat), ParseError>)
    ensures r.Ok? <==> pos < |toks|
    ensures r.Ok? ==> r.value.0 == toks[pos] && r.value.1 == pos + 1
    ensures r.Err? ==> r.error == UnexpectedEnd
  {
    if pos >= |toks| then Err(UnexpectedEnd) else Ok((toks[pos], pos + 1))
  }

  /** `match(k)`: steps over the token at the cursor when it has kind `k`,
      and otherwise leaves the cursor where it is. */
  function MatchKind(toks: seq<Token>, pos: nat, k: TokenKind): (r: (bool, nat))
    ensures r.0 <==> pos < |toks| && toks[pos].kind == k
    ensures r.1 == if r.0 then pos + 1 else pos
  {
    if pos < |toks| && toks[pos].kind == k then (true, pos + 1) else (false, pos)
  }

  // ---------------------------------------------------------------------------
  // The productions

  /** `parseExp`: a constant, whose text is converted by `std::stoi`. */
  function ParseExp(toks: seq<Token>, pos: nat): (r: Result<(Ast.Exp, nat), Failure>)
  {
    match ConsumeToken(toks, pos)
    case Err(e) => Err(Syntax(e))
    case Ok((t, next)) =>
      if t.kind != Constant then Err(Syntax(ExpectedConstant(t.kind)))
      else
        match StoI(t.text)
        case Err(c) => Err(Conversion(c))
        case Ok(v) => Ok((Ast.Constant(v), next))
  }

  /** `parseStatement`: `return <exp> ;`. */
  function ParseStatement(toks: seq<Token>, pos: nat): (r: Result<(Ast.Statement, nat), Failure>)
  {
    var p1 :- Step(Expect(toks, pos, ReturnKeyword));
    var (e, p2) :- ParseExp(toks, p1);
    var p3 :- Step(Expect(toks, p2, Semicolon));
    Ok((Ast.Return(e), p3))
  }

  /** The first half of `parseFunction`: `int <identifier> ( void ) {`,
      giving the name and the index of the body. */
  function ParseHeader(toks: seq<Token>, pos: nat): (r: Result<(string, nat), Failure>)
  {
    var p1 :- Step(Expect(toks, pos, IntKeyword));
    var (name, p2) :- Step(ConsumeToken(toks, p1));
    if name.kind != Identifier then Err(Syntax(ExpectedName(name.kind)))
    else
      var p3 :- Step(Expect(toks, p2, OpenParen));
      var p4 :- Step(Expect(toks, p3, VoidKeyword));
      var p5 :- Step(Expect(toks, p4, CloseParen));
      var p6 :- Step(Expect(toks, p5, OpenBrace));
      Ok((name.text, p6))
  }

  /** `parseFunction`: `int <identifier> ( void ) { <statement> }`. */
  function ParseFunction(toks: seq<Token>, pos: nat): (r: Result<(Ast.Function, nat), Failure>)
  {
    var (name, p6) :- ParseHeader(toks, pos);
    var (body, p7) :- ParseStatement(toks, p6);
    var p8 :- Step(Expect(toks, p7, CloseBrace));
    Ok((Ast.Function(name, body), p8))
  }

  /** `parse`: one function definition and nothing after it. */
  function Parse(toks: seq<Token>): (r: Result<Ast.Program, Failure>)
  {
    var (f, p) :- ParseFunction(toks, 0);
    if p < |toks| then Err(Syntax(TrailingTokens)) else Ok(Ast.Program(f))
  }

  // ---------------------------------------------------------------------------
  // The grammar as a reference

  /** The token kinds of the one program shape the grammar accepts. */
  const Shape: seq<TokenKind> :=
    [IntKeyword, Identifier, OpenParen, VoidKeyword, CloseParen, OpenBrace,
     ReturnKeyword, Constant, Semicolon, CloseBrace]

  /** The positions of the name and of the constant in `Shape`. */
  const NameIndex: nat := 1
  const ConstantIndex: nat := 7

  predicate KindsMatchUpTo(toks: seq<Token>, n: nat)
    requires n <= |Shape|
  {
    n <= |toks| && forall j :: 0 <= j < n ==> toks[j].kind == Shape[j]
  }

  /** The error the parser reports when the first token that does not fit
      the grammar is at index `i` (or the input ends there). */
  function ErrorAt(toks: seq<Token>, i: nat): ParseError
    requires i < |Shape|
  {
    if i == NameIndex then
      if i < |toks| then ExpectedName(toks[i].kind) else UnexpectedEnd
    else if i == ConstantIndex then
      if i < |toks| then ExpectedConstant(toks[i].kind) else UnexpectedEnd
    else
      if i < |toks| then ExpectedButFound(Shape[i], toks[i].kind) else ExpectedButEnd(Shape[i])
  }

  /** The token at index `i` does not fit the grammar, or the input ends
      there. */
  predicate Mismatch(toks: seq<Token>, i: nat)
    requires i < |Shape|
  {
    i >= |toks| || toks[i].kind != Shape[i]
  }

  /** The value of the constant token, when it converts. */
  predicate ConstantFits(toks: seq<Token>)
  {
    ConstantIndex < |toks| && StoI(toks[ConstantIndex].text).Ok?
  }

  /** The tree the grammar builds from the ten tokens. */
  function Tree(toks: seq<Token>): Ast.Program
    requires ConstantFits(toks)
  {
    Ast.Program(Ast.Function(toks[NameIndex].text, Ast.Return(Ast.Constant(StoI(toks[ConstantIndex].text).value))))
  }

  // parseExp at the constant's index

  lemma ExpOk(toks: seq<Token>)
    requires KindsMatchUpTo(toks, ConstantIndex + 1) && ConstantFits(toks)
    ensures ParseExp(toks, ConstantIndex).Ok?
    ensures ParseExp(toks, ConstantIndex).value.0 == Tree(toks).func.body.exp
    ensures ParseExp(toks, ConstantIndex).value.1 == ConstantIndex + 1
  {
  }

  lemma ExpFails(toks: seq<Token>)
    requires KindsMatchUpTo(toks, ConstantIndex) && Mismatch(toks, ConstantIndex)
    ensures ParseExp(toks, ConstantIndex).Err?
    ensures ParseExp(toks, ConstantIndex).error == Syntax(ErrorAt(toks, ConstantIndex))
  {
  }

  lemma ExpConversion(toks: seq<Token>)
    requires KindsMatchUpTo(toks, ConstantIndex + 1) && !ConstantFits(toks)
    ensures ParseExp(toks, ConstantIndex).Err?
    ensures ParseExp(toks, ConstantIndex).error == Conversion(StoI(toks[ConstantIndex].text).error)
  {
  }

  // parseStatement at the index of `return`

  const StatementIndex: nat := 6

  lemma StatementOk(toks: seq<Token>)
    requires KindsMatchUpTo(toks, 9) && ConstantFits(toks)
    ensures ParseStatement(toks, StatementIndex).Ok?
    ensures ParseStatement(toks, StatementIndex).value.0 == Tree(toks).func.body
    ensures ParseStatement(toks, StatementIndex).value.1 == 9
  {
    ExpOk(toks);
  }

  lemma StatementFails(toks: seq<Token>, i: nat)
    requires StatementIndex <= i < 9 && KindsMatchUpTo(toks, i) && Mismatch(toks, i)
    requires i > ConstantIndex ==> ConstantFits(toks)
    ensures ParseStatement(toks, StatementIndex).Err?
    ensures ParseStatement(toks, StatementIndex).error == Syntax(ErrorAt(toks, i))
  {
    if i == ConstantIndex {
      ExpFails(toks);
    } else if i > ConstantIndex {
      ExpOk(toks);
    }
  }

  lemma StatementConversion(toks: seq<Token>)
    requires KindsMatchUpTo(toks, ConstantIndex + 1) && !ConstantFits(toks)
    ensures ParseStatement(toks, StatementIndex).Err?
    ensures ParseStatement(toks, StatementIndex).error == Conversion(StoI(toks[ConstantIndex].text).error)
  {
    ExpConversion(toks);
  }

  // parseFunction at the start

  lemma HeaderOk(toks: seq<Token>)
    requires KindsMatchUpTo(toks, StatementIndex)
    ensures ParseHeader(toks, 0).Ok?
    ensures ParseHeader(toks, 0).value.0 == toks[NameIndex].text
    ensures ParseHeader(toks, 0).value.1 == StatementIndex
  {
  }

  lemma HeaderFails(toks: seq<Token>, i: nat)
    requires i < StatementIndex && KindsMatchUpTo(toks, i) && Mismatch(toks, i)
    ensures ParseHeader(toks, 0).Err?
    ensures ParseHeader(toks, 0).error == Syntax(ErrorAt(toks, i))
  {
  }

  lemma FunctionOk(toks: seq<Token>)
    requires KindsMatchUpTo(toks, |Shape|) && ConstantFits(toks)
    ensures ParseFunction(toks, 0).Ok?
    ensures ParseFunction(toks, 0).value.0 == Tree(toks).func
    ensures ParseFunction(toks, 0).value.1 == |Shape|
  {
    HeaderOk(toks);
    StatementOk(toks);
  }

  lemma FunctionFails(toks: seq<Token>, i: nat)
    requires i < |Shape| && KindsMatchUpTo(toks, i) && Mismatch(toks, i)
    requires i > ConstantIndex ==> ConstantFits(toks)
    ensures ParseFunction(toks, 0).Err?
    ensures ParseFunction(toks, 0).error == Syntax(ErrorAt(toks, i))
  {
    if i < StatementIndex {
      HeaderFails(toks, i);
    } else {
      HeaderOk(toks);
      if i < 9 {
        StatementFails(toks, i);
      } else {
        StatementOk(toks);
      }
    }
  }

  lemma FunctionConversion(toks: seq<Token>)
    requires KindsMatchUpTo(toks, ConstantIndex + 1) && !ConstantFits(toks)
    ensures ParseFunction(toks, 0).Err?
    ensures ParseFunction(toks, 0).error == Conversion(StoI(toks[ConstantIndex].text).error)
  {
    HeaderOk(toks);
    StatementConversion(toks);
  }

  /** The first index from `i` on where the tokens stop fitting the grammar,
      or the length of the grammar when they fit throughout. */
  function FirstMismatch(toks: seq<Token>, i: nat): (r: nat)
    requires i <= |Shape| && KindsMatchUpTo(toks, i)
    ensures i <= r <= |Shape| && KindsMatchUpTo(toks, r)
    ensures r < |Shape| ==> Mismatch(toks, r)
    decreases |Shape| - i
  {
    if i == |Shape| || Mismatch(toks, i) then i else FirstMismatch(toks, i + 1)
  }

  // ---------------------------------------------------------------------------
  // parse

  /** `parse` succeeds exactly on the ten tokens of the grammar whose
      constant fits an `int`, and builds the tree they spell: the name is
      the text of the second token and the constant the value of the
      eighth. */
  lemma ParseAccepts(toks: seq<Token>)
    ensures Parse(toks).Ok? <==> |toks| == |Shape| && KindsMatchUpTo(toks, |Shape|) && ConstantFits(toks)
    ensures Parse(toks).Ok? ==> ConstantFits(toks) && Parse(toks).value == Tree(toks)
  {
    var i := FirstMismatch(toks, 0);
    if i < |Shape| {
      if i > ConstantIndex && !ConstantFits(toks) {
        FunctionConversion(toks);
      } else {
        FunctionFails(toks, i);
      }
    } else if !ConstantFits(toks) {
      FunctionConversion(toks);
    } else {
      FunctionOk(toks);
    }
  }

  /** The first token that does not fit decides the error, as long as the
      constant before it converted. */
  lemma ParseFirstMismatch(toks: seq<Token>, i: nat)
    requires i < |Shape| && KindsMatchUpTo(toks, i) && Mismatch(toks, i)
    requires i > ConstantIndex ==> ConstantFits(toks)
    ensures Parse(toks).Err? && Parse(toks).error == Syntax(ErrorAt(toks, i))
  {
    FunctionFails(toks, i);
  }

  /** A constant that does not fit an `int` fails the parse with the
      conversion error, whatever follows it. */
  lemma ParseConversionFailure(toks: seq<Token>)
    requires KindsMatchUpTo(toks, ConstantIndex + 1) && !ConstantFits(toks)
    ensures Parse(toks).Err? && Parse(toks).error == Conversion(StoI(toks[ConstantIndex].text).error)
  {
    FunctionConversion(toks);
  }

  /** Anything after the closing brace is rejected. */
  lemma ParseTrailing(toks: seq<Token>)
    requires KindsMatchUpTo(toks, |Shape|) && |toks| > |Shape| && ConstantFits(toks)
    ensures Parse(toks).Err? && Parse(toks).error == Syntax(TrailingTokens)
  {
    FunctionOk(toks);
  }
}
