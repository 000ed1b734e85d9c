/** The lexer (lexer.cpp): a left-to-right scan that skips white space and
    comments and then takes the longest match among the token patterns.
    The scan position is an explicit index into the input. */
module Lexer {
  import opened Results
  import opened Text
  import opened Tokens

  datatype LexError =
    | UnterminatedComment     // a block comment that is never closed
    | InvalidToken(position: nat)  // no pattern matches at `position`

  /** The `what()` text of the `std::runtime_error` the lexer throws. */
  function Message(e: LexError): string
  {
    match e
    case UnterminatedComment => "Unterminated multi-line comment"
    case InvalidToken(p) => "Invalid token at position " + NatToString(p)
  }

  /** The message of an invalid token ends in the decimal digits of its
      position, so the position can be read back from the text. */
  lemma InvalidTokenMessage(p: nat)
    ensures var m := Message(InvalidToken(p));
      && |m| > 26 && m[..26] == "Invalid token at position "
      && AllDigits(m[26..]) && DecimalValue(m[26..]) == p
  {
    var m := Message(InvalidToken(p));
    assert m[26..] == NatToString(p);
    NatToStringRoundTrip(p);
  }

  // ---------------------------------------------------------------------------
  // White space and comments

  /** Whether the skipping loop would consume something at index `i`. */
  predicate StartsTrivia(s: string, i: nat)
    requires i < |s|
  {
    IsSpace(s[i]) || (s[i] == '/' && i + 1 < |s| && (s[i + 1] == '/' || s[i + 1] == '*'))
  }

  /** Skips a `//` comment starting at `pos`: the result is the next newline
      after the two slashes (which stays unconsumed), or the end of input. */
  function SkipLineComment(s: string, pos: nat): (r: nat)
    requires pos + 2 <= |s|
    ensures pos + 2 <= r <= |s|
    ensures forall k :: pos + 2 <= k < r ==> s[k] != '\n'
    ensures r == |s| || s[r] == '\n'
  {
    SpanEnd(s, pos + 2, c => c != '\n')
  }

  // A closing star-slash starts at index `j`.
  predicate ClosesAt(s: string, j: nat) {
    j + 1 < |s| && s[j] == '*' && s[j + 1] == '/'
  }

  // The first index at or after `i` where a closing star-slash starts, if any.
  function FindClose(s: string, i: nat): (r: Option<nat>)
    requires i <= |s|
    ensures r.Some? ==> i <= r.value && ClosesAt(s, r.value)
    ensures r.Some? ==> forall j :: i <= j < r.value ==> !ClosesAt(s, j)
    ensures r.None? ==> forall j :: i <= j ==> !ClosesAt(s, j)
    decreases |s| - i
  {
    if i == |s| then None
    else if ClosesAt(s, i) then Some(i)
    else FindClose(s, i + 1)
  }

  // Skips a block comment whose opening slash-star is at `pos`: the comment
  // ends just after the first star-slash that starts at least two characters
  // later, so the opening star never doubles as a closing one.
  function SkipBlockComment(s: string, pos: nat): (r: Result<nat, LexError>)
    requires pos + 2 <= |s|
    ensures r.Ok? ==> pos + 4 <= r.value <= |s| && ClosesAt(s, r.value - 2)
    ensures r.Ok? ==> forall j :: pos + 2 <= j < r.value - 2 ==> !ClosesAt(s, j)
    ensures r.Err? <==> forall j :: pos + 2 <= j ==> !ClosesAt(s, j)
    ensures r.Err? ==> r.error == UnterminatedComment
  {
    match FindClose(s, pos + 2)
    case Some(j) => Ok(j + 2)
    case None => Err(UnterminatedComment)
  }

  /** `skipWhitespaceAndComments`: the first position at or after `pos` that
      holds no white space and starts no comment. */
  function SkipTrivia(s: string, pos: nat): (r: Result<nat, LexError>)
    requires pos <= |s|
    ensures r.Ok? ==> pos <= r.value <= |s|
    ensures r.Ok? ==> r.value == |s| || !StartsTrivia(s, r.value)
    ensures r.Err? ==> r.error == UnterminatedComment
    decreases |s| - pos
  {
    if pos == |s| then Ok(pos)
    else if IsSpace(s[pos]) then SkipTrivia(s, pos + 1)
    else if s[pos] == '/' && pos + 1 < |s| then
      if s[pos + 1] == '/' then SkipTrivia(s, SkipLineComment(s, pos))
      else if s[pos + 1] == '*' then
        match SkipBlockComment(s, pos)
        case Ok(p) => SkipTrivia(s, p)
        case Err(e) => Err(e)
      else Ok(pos)
    else Ok(pos)
  }

  // ---------------------------------------------------------------------------
  // Token patterns

  /** The patterns `findLongestMatch` tries, in order. */
  const Patterns: seq<TokenKind> :=
    [Identifier, Constant, OpenParen, CloseParen, OpenBrace, CloseBrace, Semicolon]

  /** The regex assertion `\b` at index `i`: exactly one of the characters on
      either side is a word character (a side outside the input counts as a
      non-word character). */
  predicate WordBoundary(s: string, i: nat) {
    (0 < i <= |s| && IsWordChar(s[i - 1])) != (i < |s| && IsWordChar(s[i]))
  }

  /** Reference meaning of the anchored patterns: the pattern of `kind`
      matches exactly `s[pos..pos + k]`.
        Identifier  `[a-zA-Z_]\w*\b`
        Constant    `[0-9]+\b`
        punctuation `\(`, `\)`, `\{`, `\}`, `;` */
  ghost predicate PatternMatches(kind: TokenKind, s: string, pos: nat, k: nat) {
    && 1 <= k
    && pos + k <= |s|
    && match kind
       case Identifier =>
         && IsIdentStart(s[pos])
         && (forall i :: pos < i < pos + k ==> IsWordChar(s[i]))
         && WordBoundary(s, pos + k)
       case Constant =>
         && (forall i :: pos <= i < pos + k ==> IsDigit(s[i]))
         && WordBoundary(s, pos + k)
       case OpenParen | CloseParen | OpenBrace | CloseBrace | Semicolon =>
         k == 1 && s[pos] == PunctuationChar(kind)
       case _ => false
  }

  /** `k` is the length of the longest match of the pattern of `kind` at `pos`,
      or 0 when it does not match at all. A greedy regex engine with
      backtracking returns exactly this match. */
  ghost predicate IsLongestMatch(kind: TokenKind, s: string, pos: nat, k: nat) {
    && (k == 0 || PatternMatches(kind, s, pos, k))
    && forall k': nat :: k < k' ==> !PatternMatches(kind, s, pos, k')
  }

  /** A hand-written scanner for each pattern; `MatchLengthIsLongest` states
      what it computes. */
  function MatchLength(kind: TokenKind, s: string, pos: nat): (k: nat)
    requires pos < |s|
    ensures pos + k <= |s|
  {
    match kind
    case Identifier =>
      if IsIdentStart(s[pos]) then SpanEnd(s, pos + 1, IsWordChar) - pos else 0
    case Constant =>
      var e := SpanEnd(s, pos, IsDigit);
      if e > pos && WordBoundary(s, e) then e - pos else 0
    case OpenParen | CloseParen | OpenBrace | CloseBrace | Semicolon =>
      if s[pos] == PunctuationChar(kind) then 1 else 0
    case _ => 0
  }

  /** Each scanner returns the length of the longest match of its pattern. */
  lemma MatchLengthIsLongest(kind: TokenKind, s: string, pos: nat)
    requires pos < |s|
    ensures IsLongestMatch(kind, s, pos, MatchLength(kind, s, pos))
  {
  }

  /** A candidate token: the pattern that matched and the match length. */
  datatype Match = Match(kind: TokenKind, length: nat)

  /** The loop of `findLongestMatch` from pattern `i` on: a pattern replaces
      the best match so far only when its match is strictly longer. */
  function LongestFrom(s: string, pos: nat, i: nat, best: Match): (r: Match)
    requires pos < |s| && i <= |Patterns| && pos + best.length <= |s|
    ensures r == best || (r.kind in Patterns && best.length < r.length && pos + r.length <= |s|)
    decreases |Patterns| - i
  {
    if i == |Patterns| then best
    else
      var m := MatchLength(Patterns[i], s, pos);
      LongestFrom(s, pos, i + 1, if m > best.length then Match(Patterns[i], m) else best)
  }

  /** The loop keeps the longest of the matches it sees, and what it keeps
      is a real match. */
  lemma {:induction false} LongestFromIsLongest(s: string, pos: nat, i: nat, best: Match)
    requires pos < |s| && i <= |Patterns| && pos + best.length <= |s|
    ensures var r := LongestFrom(s, pos, i, best);
      && best.length <= r.length
      && (r == best || r.length == MatchLength(r.kind, s, pos))
      && forall j :: i <= j < |Patterns| ==> MatchLength(Patterns[j], s, pos) <= r.length
    decreases |Patterns| - i
  {
    if i < |Patterns| {
      var m := MatchLength(Patterns[i], s, pos);
      LongestFromIsLongest(s, pos, i + 1, if m > best.length then Match(Patterns[i], m) else best);
    }
  }

  /** `findLongestMatch`: the kind and length of the longest pattern match
      at `pos` (the matched text is the `length` characters from `pos`);
      failing with the position when no pattern matches. */
  function FindLongestMatch(s: string, pos: nat): (r: Result<Match, LexError>)
    requires pos < |s|
    ensures r.Ok? ==> r.value.kind in Patterns && 1 <= r.value.length && pos + r.value.length <= |s|
    ensures r.Err? ==> r.error == InvalidToken(pos)
  {
    var best := LongestFrom(s, pos, 0, Match(Identifier, 0));
    if best.length == 0 then Err(InvalidToken(pos)) else Ok(best)
  }

  /** No pattern matches longer than the one chosen, and the search fails
      exactly when no pattern matches at all. */
  lemma FindLongestMatchIsLongest(s: string, pos: nat)
    requires pos < |s|
    ensures var r := FindLongestMatch(s, pos);
      r.Ok? ==> r.value.length == MatchLength(r.value.kind, s, pos)
    ensures var r := FindLongestMatch(s, pos);
      r.Ok? ==> forall j :: 0 <= j < |Patterns| ==> MatchLength(Patterns[j], s, pos) <= r.value.length
    ensures FindLongestMatch(s, pos).Err? <==> forall j :: 0 <= j < |Patterns| ==> MatchLength(Patterns[j], s, pos) == 0
  {
    LongestFromIsLongest(s, pos, 0, Match(Identifier, 0));
  }

  /** The text of the chosen match, reclassified, is a well-formed token. */
  lemma MatchIsWellFormed(s: string, pos: nat, m: Match)
    requires pos < |s| && FindLongestMatch(s, pos) == Ok(m)
    ensures WellFormed(TokenOfMatch(s, pos, m))
  {
    FindLongestMatchIsLongest(s, pos);
    MatchLengthIsLongest(m.kind, s, pos);
    PatternTextWellFormed(m.kind, s, pos, m.length);
  }

  /** Any text a pattern matches, reclassified, is a well-formed token. */
  lemma PatternTextWellFormed(kind: TokenKind, s: string, pos: nat, k: nat)
    requires PatternMatches(kind, s, pos, k)
    ensures WellFormed(TokenOfMatch(s, pos, Match(kind, k)))
  {
    var text := s[pos..pos + k];
    assert forall i :: 0 <= i < k ==> text[i] == s[pos + i];
    if kind == Identifier {
      assert IsIdentifierText(text);
    }
  }


  /** The reclassification step of `getNextToken`: an identifier spelled like
      a reserved word becomes that keyword; every other token keeps its kind. */
  function Reclassify(kind: TokenKind, text: string): (r: TokenKind)
    ensures kind != Identifier ==> r == kind
    ensures kind == Identifier ==> (r == IntKeyword <==> text == "int")
    ensures kind == Identifier ==> (r == VoidKeyword <==> text == "void")
    ensures kind == Identifier ==> (r == ReturnKeyword <==> text == "return")
    ensures kind == Identifier ==> (r == Identifier <==> !IsKeyword(text))
  {
    if kind == Identifier && IsKeyword(text) then
      if text == "int" then IntKeyword else if text == "void" then VoidKeyword else ReturnKeyword
    else kind
  }

  /** `getNextToken`: the token at `pos`, whose text is the input slice it was
      scanned from. */
  function NextToken(s: string, pos: nat): (r: Result<Token, LexError>)
    requires pos < |s|
    ensures r.Ok? ==> 1 <= |r.value.text| && pos + |r.value.text| <= |s|
    ensures r.Ok? ==> forall i :: 0 <= i < |r.value.text| ==> r.value.text[i] == s[pos + i]
    ensures r.Err? ==> r.error == InvalidToken(pos)
  {
    match FindLongestMatch(s, pos)
    case Err(e) => Err(e)
    case Ok(m) => Ok(TokenOfMatch(s, pos, m))
  }

  /** The token a match stands for: the matched text, reclassified. */
  function TokenOfMatch(s: string, pos: nat, m: Match): (t: Token)
    requires pos + m.length <= |s|
  {
    var text := s[pos..pos + m.length];
    Token(Reclassify(m.kind, text), text)
  }

  /** Every token `getNextToken` returns is well formed. */
  lemma NextTokenWellFormed(s: string, pos: nat)
    requires pos < |s|
    ensures NextToken(s, pos).Ok? ==> WellFormed(NextToken(s, pos).value)
  {
    var m := FindLongestMatch(s, pos);
    if m.Ok? {
      MatchIsWellFormed(s, pos, m.value);
    }
  }

  /** The token `getNextToken` builds from the chosen match. */
  lemma NextTokenOfMatch(s: string, pos: nat, m: Match)
    requires pos < |s| && FindLongestMatch(s, pos) == Ok(m)
    ensures pos + m.length <= |s|
    ensures NextToken(s, pos) == Ok(TokenOfMatch(s, pos, m))
  {
  }

  /** At a letter or underscore the token is the whole run of word
      characters, so a keyword is recognised only when the run is exactly the
      keyword: `returning` is one identifier. */
  lemma IdentifierToken(s: string, pos: nat)
    requires pos < |s| && IsIdentStart(s[pos])
    ensures var e := SpanEnd(s, pos + 1, IsWordChar);
      && NextToken(s, pos).Ok?
      && NextToken(s, pos).value.text == s[pos..e]
      && NextToken(s, pos).value.kind == Reclassify(Identifier, s[pos..e])
  {
    var e := SpanEnd(s, pos + 1, IsWordChar);
    assert FindLongestMatch(s, pos).Ok? by {
      FindLongestMatchIsLongest(s, pos);
      assert MatchLength(Patterns[0], s, pos) > 0;
    }
    var m := FindLongestMatch(s, pos).value;
    ChosenLength(s, pos, m);
    OnlyIdentifierAt(s, pos, m.kind);
    assert pos + m.length == e;
    NextTokenOfMatch(s, pos, m);
    assert TokenOfMatch(s, pos, m) == Token(Reclassify(Identifier, s[pos..e]), s[pos..e]);
  }

  /** At a letter or underscore only the identifier pattern matches. */
  lemma OnlyIdentifierAt(s: string, pos: nat, kind: TokenKind)
    requires pos < |s| && IsIdentStart(s[pos]) && kind in Patterns && MatchLength(kind, s, pos) > 0
    ensures kind == Identifier
  {
  }

  /** A word-like token is never followed directly by a word character: the
      identifier pattern takes the whole run, and the constant pattern needs
      a word boundary after its digits. */
  lemma {:induction false} NextTokenEndsWord(s: string, pos: nat, t: Token, e: nat)
    requires pos < |s| && NextToken(s, pos) == Ok(t) && IsWordToken(t) && e == pos + |t.text|
    ensures e == |s| || !IsWordChar(s[e])
  {
    var m := FindLongestMatch(s, pos).value;
    assert t == TokenOfMatch(s, pos, m) && e == pos + m.length by {
      NextTokenOfMatch(s, pos, m);
      assert t.text == s[pos..pos + m.length];
    }
    MatchEndsWord(s, pos, m, e);
  }

  lemma {:induction false} MatchEndsWord(s: string, pos: nat, m: Match, e: nat)
    requires pos < |s| && FindLongestMatch(s, pos) == Ok(m) && IsWordToken(TokenOfMatch(s, pos, m))
    requires e == pos + m.length
    ensures e == |s| || !IsWordChar(s[e])
  {
    ChosenLength(s, pos, m);
    ReclassifiedWord(m.kind, s[pos..pos + m.length]);
    WordMatchEnds(m.kind, s, pos, e);
  }

  /** Only the identifier and constant patterns produce word-like tokens. */
  lemma ReclassifiedWord(kind: TokenKind, text: string)
    requires kind in Patterns && IsWordToken(Token(Reclassify(kind, text), text))
    ensures kind == Identifier || kind == Constant
  {
  }

  /** The length of the chosen match is its pattern's match length. */
  lemma ChosenLength(s: string, pos: nat, m: Match)
    requires pos < |s| && FindLongestMatch(s, pos) == Ok(m)
    ensures m.length == MatchLength(m.kind, s, pos)
  {
    FindLongestMatchIsLongest(s, pos);
  }

  lemma WordMatchEnds(kind: TokenKind, s: string, pos: nat, e: nat)
    requires pos < |s| && (kind == Identifier || kind == Constant)
    requires MatchLength(kind, s, pos) > 0 && e == pos + MatchLength(kind, s, pos)
    ensures e == |s| || !IsWordChar(s[e])
  {
    if kind == Constant {
      var d := SpanEnd(s, pos, IsDigit);
      assert IsWordChar(s[d - 1]);
    }
  }

  /** The inputs at which no pattern matches: a digit run followed directly
      by a letter or underscore (the constant pattern's trailing word
      boundary fails, as in `123abc`), or a character that starts no
      pattern at all (a lone `/`, `+` or `@`). */
  predicate NoTokenAt(s: string, pos: nat)
    requires pos < |s|
  {
    || (IsDigit(s[pos]) && SpanEnd(s, pos, IsDigit) < |s| && IsIdentStart(s[SpanEnd(s, pos, IsDigit)]))
    || (!IsWordChar(s[pos]) && s[pos] !in "(){};")
  }

  lemma NoMatchAt(s: string, pos: nat)
    requires pos < |s| && NoTokenAt(s, pos)
    ensures forall j :: 0 <= j < |Patterns| ==> MatchLength(Patterns[j], s, pos) == 0
  {
    forall j | 0 <= j < |Patterns| ensures MatchLength(Patterns[j], s, pos) == 0 {
    }
  }

  lemma SomeMatchAt(s: string, pos: nat) returns (j: nat)
    requires pos < |s| && !NoTokenAt(s, pos)
    ensures j < |Patterns| && MatchLength(Patterns[j], s, pos) > 0
  {
    if IsIdentStart(s[pos]) {
      j := 0;
    } else if IsDigit(s[pos]) {
      j := 1;
    } else {
      assert s[pos] in "(){};";
      var k :| 0 <= k < 5 && s[pos] == "(){};"[k];
      j := k + 2;
    }
  }

  /** `findLongestMatch` fails exactly at the inputs no pattern matches. */
  lemma NextTokenFails(s: string, pos: nat)
    requires pos < |s|
    ensures NextToken(s, pos).Err? <==> NoTokenAt(s, pos)
  {
    FindLongestMatchIsLongest(s, pos);
    if NoTokenAt(s, pos) {
      NoMatchAt(s, pos);
    } else {
      var j := SomeMatchAt(s, pos);
    }
  }

  // ---------------------------------------------------------------------------
  // The scan

  /** What one round of the scanning loop finds. */
  datatype Step =
    | Done                          // only white space and comments were left
    | Next(token: Token, next: nat)  // a token, and the index just after it

  /** One round of the loop of `tokenize`: skip white space and comments,
      then scan one token if any input is left. */
  function ScanStep(s: string, pos: nat): (r: Result<Step, LexError>)
    requires pos < |s|
    ensures r.Ok? && r.value.Next? ==> pos < r.value.next <= |s|
    ensures r.Ok? && r.value.Next? ==>
              && SkipTrivia(s, pos).Ok? && SkipTrivia(s, pos).value < |s|
              && NextToken(s, SkipTrivia(s, pos).value) == Ok(r.value.token)
              && r.value.next == SkipTrivia(s, pos).value + |r.value.token.text|
    ensures r == Ok(Done) <==> SkipTrivia(s, pos) == Ok(|s|)
    ensures r == Err(UnterminatedComment) <==> SkipTrivia(s, pos).Err?
    ensures r.Err? && r.error.InvalidToken? <==>
              SkipTrivia(s, pos).Ok? && SkipTrivia(s, pos).value < |s| && NoTokenAt(s, SkipTrivia(s, pos).value)
    ensures r.Err? && r.error.InvalidToken? ==> r.error.position == SkipTrivia(s, pos).value
    ensures r.Err? && r.error.InvalidToken? ==> pos <= r.error.position < |s|
  {
    match SkipTrivia(s, pos)
    case Err(e) => Err(e)
    case Ok(p) =>
      if p == |s| then Ok(Done)
      else
        NextTokenFails(s, p);
        match NextToken(s, p)
        case Err(e) => Err(e)
        case Ok(t) => Ok(Next(t, p + |t.text|))
  }

  /** A round that skips to `p` and scans `t` there continues after `t`. */
  lemma ScanStepOf(s: string, pos: nat, p: nat, t: Token)
    requires pos < |s| && SkipTrivia(s, pos) == Ok(p) && p < |s| && NextToken(s, p) == Ok(t)
    ensures ScanStep(s, pos).Ok? && ScanStep(s, pos).value.Next?
    ensures ScanStep(s, pos).value.token == t && ScanStep(s, pos).value.next == p + |t.text|
  {
  }

  /** The loop of `tokenize`, from index `pos` on. */
  function TokenizeFrom(s: string, pos: nat): (r: Result<seq<Token>, LexError>)
    requires pos <= |s|
    ensures r.Err? && r.error.InvalidToken? ==> pos <= r.error.position < |s|
    ensures r.Err? && r.error.InvalidToken? ==>
              NoTokenAt(s, r.error.position) && !StartsTrivia(s, r.error.position)
    decreases |s| - pos
  {
    if pos == |s| then Ok([])
    else
      match ScanStep(s, pos)
      case Err(e) => Err(e)
      case Ok(Done) => Ok([])
      case Ok(Next(t, q)) =>
        match TokenizeFrom(s, q)
        case Err(e) => Err(e)
        case Ok(rest) => Ok([t] + rest)
  }

  /** Every token of a successful scan is well formed. */
  lemma {:induction false} TokenizeFromWellFormed(s: string, pos: nat)
    requires pos <= |s|
    ensures TokenizeFrom(s, pos).Ok? ==>
              forall i :: 0 <= i < |TokenizeFrom(s, pos).value| ==> WellFormed(TokenizeFrom(s, pos).value[i])
    decreases |s| - pos
  {
    if pos < |s| && ScanStep(s, pos).Ok? && ScanStep(s, pos).value.Next? {
      var p := SkipTrivia(s, pos).value;
      var t, q := ScanStep(s, pos).value.token, ScanStep(s, pos).value.next;
      NextTokenWellFormed(s, p);
      TokenizeFromWellFormed(s, q);
      var r := TokenizeFrom(s, pos);
      if r.Ok? {
        var rest := TokenizeFrom(s, q).value;
        assert r.value == [t] + rest;
        forall i | 0 <= i < |r.value| ensures WellFormed(r.value[i]) {
          if i > 0 {
            assert r.value[i] == rest[i - 1];
          }
        }
      }
    }
  }

  /** `tokenize`. */
  function Tokenize(s: string): Result<seq<Token>, LexError>
  {
    TokenizeFrom(s, 0)
  }
}
