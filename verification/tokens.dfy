/** The token vocabulary shared by the lexer and the parser (lexer.h). */
module Tokens {
  import opened Text

  datatype TokenKind =
    | Identifier
    | Constant
    | IntKeyword
    | VoidKeyword
    | ReturnKeyword
    | OpenParen
    | CloseParen
    | OpenBrace
    | CloseBrace
    | Semicolon

  /** A token: its kind and the exact input text it was scanned from. */
  datatype Token = Token(kind: TokenKind, text: string)

  predicate IsKeyword(text: string) {
    text == "int" || text == "void" || text == "return"
  }

  /** `[a-zA-Z_]\w*` in full. */
  predicate IsIdentifierText(text: string) {
    1 <= |text| && IsIdentStart(text[0]) && forall i :: 0 < i < |text| ==> IsWordChar(text[i])
  }

  /** The one-character text of a punctuation kind. */
  function PunctuationChar(kind: TokenKind): char
    requires kind in {OpenParen, CloseParen, OpenBrace, CloseBrace, Semicolon}
  {
    match kind
    case OpenParen => '('
    case CloseParen => ')'
    case OpenBrace => '{'
    case CloseBrace => '}'
    case Semicolon => ';'
  }

  /** Tokens whose text is a run of word characters, so two of them need
      something between them to stay apart. */
  predicate IsWordToken(t: Token) {
    t.kind in {Identifier, Constant, IntKeyword, VoidKeyword, ReturnKeyword}
  }

  /** A token whose text is a complete match of its kind's pattern, classified
      the way the lexer classifies it. */
  predicate WellFormed(t: Token) {
    match t.kind
    case Identifier => IsIdentifierText(t.text) && !IsKeyword(t.text)
    case Constant => 1 <= |t.text| && AllDigits(t.text)
    case IntKeyword => t.text == "int"
    case VoidKeyword => t.text == "void"
    case ReturnKeyword => t.text == "return"
    case _ => t.text == [PunctuationChar(t.kind)]
  }
}
