/** What the lexer skips and how tokens sit in the input.

    A source text is a sequence of tokens separated by runs of white space and
    comments. `Layout` builds such a text from tokens and separators, and the lexer
    recovers the tokens of every such text. */
module Layouts {
  import opened Results
  import opened Text
  import opened Tokens
  import opened Lexer

  /** One skipped unit: a white-space character, a `//` comment (without its
      ending newline) or a block comment. */
  datatype Piece =
    | Space(c: char)
    | LineComment(body: string)
    | BlockComment(body: string)

  function PieceText(p: Piece): string
  {
    match p
    case Space(c) => [c]
    case LineComment(b) => "//" + b
    case BlockComment(b) => "/*" + b + "*/"
  }

  function Render(ps: seq<Piece>): string
  {
    if |ps| == 0 then "" else PieceText(ps[0]) + Render(ps[1..])
  }

  predicate ValidPiece(p: Piece)
  {
    match p
    case Space(c) => IsSpace(c)
    case LineComment(b) => forall i :: 0 <= i < |b| ==> b[i] != '\n'
    case BlockComment(b) => forall j :: 0 <= j < |b| - 1 ==> !(b[j] == '*' && b[j + 1] == '/')
  }

  /** A run of pieces the lexer skips piece by piece: a line comment inside
      the run is ended by the newline that follows it. */
  predicate ValidTrivia(ps: seq<Piece>)
  {
    |ps| == 0 ||
    (&& ValidPiece(ps[0])
     && (ps[0].LineComment? && |ps| > 1 ==> ps[1] == Space('\n'))
     && ValidTrivia(ps[1..]))
  }

  /** A separator; only the one after the last token may end in a line
      comment, since a line comment would swallow a token after it. */
  predicate ValidSeparator(ps: seq<Piece>, last: bool)
  {
    ValidTrivia(ps) && (last || |ps| == 0 || !ps[|ps| - 1].LineComment?)
  }

  /** `seps[0] toks[0] seps[1] toks[1] ... toks[n-1] seps[n]` */
  function Layout(toks: seq<Token>, seps: seq<seq<Piece>>): string
    requires |seps| == |toks| + 1
  {
    if |toks| == 0 then Render(seps[0])
    else Render(seps[0]) + toks[0].text + Layout(toks[1..], seps[1..])
  }

  /** Well-formed tokens with valid separators, where two word-like tokens
      (identifiers, keywords, constants) are never directly adjacent. */
  predicate ValidLayout(toks: seq<Token>, seps: seq<seq<Piece>>)
  {
    && |seps| == |toks| + 1
    && if |toks| == 0 then ValidSeparator(seps[0], true)
       else
         && ValidSeparator(seps[0], false)
         && WellFormed(toks[0])
         && (|toks| > 1 && seps[1] == [] ==> !(IsWordToken(toks[0]) && IsWordToken(toks[1])))
         && ValidLayout(toks[1..], seps[1..])
  }

  /** The pattern that produces tokens of `kind` (keywords come from the
      identifier pattern). */
  function PatternOf(kind: TokenKind): (r: TokenKind)
    ensures r in Patterns
  {
    match kind
    case IntKeyword | VoidKeyword | ReturnKeyword => Identifier
    case _ => kind
  }

  // ---------------------------------------------------------------------------
  // Skipping a rendered run of pieces

  lemma RenderNonEmptyStart(ps: seq<Piece>)
    requires |ps| > 0 && ValidTrivia(ps)
    ensures |Render(ps)| > 0 && (IsSpace(Render(ps)[0]) || Render(ps)[0] == '/')
  {
    assert Render(ps) == PieceText(ps[0]) + Render(ps[1..]);
    assert ValidPiece(ps[0]);
  }

  /** `t` occurs in `s` at index `pos`. */
  predicate OccursAt(s: string, pos: nat, t: string) {
    pos + |t| <= |s| && forall i :: 0 <= i < |t| ==> s[pos + i] == t[i]
  }

  lemma OccursConcat(s: string, pos: nat, a: string, b: string)
    requires OccursAt(s, pos, a + b)
    ensures OccursAt(s, pos, a) && OccursAt(s, pos + |a|, b)
  {
    forall i | 0 <= i < |a| ensures s[pos + i] == a[i] {
      assert (a + b)[i] == a[i];
    }
    forall i | 0 <= i < |b| ensures s[pos + |a| + i] == b[i] {
      assert (a + b)[|a| + i] == b[i];
    }
  }

  /** The first character after a rendered run, when there is one. */
  predicate StopsAt(s: string, e: nat, ps: seq<Piece>) {
    e == |s| || (e < |s| && !IsSpace(s[e]) && s[e] != '/' && (|ps| == 0 || !ps[|ps| - 1].LineComment?))
  }

  /** Skipping one valid piece: the loop continues right after it. A line
      comment must be followed by a newline or the end of the input. */
  lemma SkipOnePiece(s: string, pos: nat, p: Piece)
    requires OccursAt(s, pos, PieceText(p)) && ValidPiece(p)
    requires p.LineComment? ==> pos + |PieceText(p)| == |s| || s[pos + |PieceText(p)|] == '\n'
    ensures SkipTrivia(s, pos) == SkipTrivia(s, pos + |PieceText(p)|)
  {
    var t := PieceText(p);
    assert s[pos] == t[0];
    match p {
      case Space(c) =>
      case LineComment(b) =>
        assert s[pos + 1] == t[1];
        var e := pos + |t|;
        forall k | pos + 2 <= k < e ensures s[k] != '\n' {
          assert s[k] == t[k - pos] == b[k - pos - 2];
        }
        assert SkipLineComment(s, pos) == e;
      case BlockComment(b) =>
        assert s[pos + 1] == t[1];
        var e := pos + 2 + |b|;
        assert s[e] == t[2 + |b|] && s[e + 1] == t[3 + |b|];
        assert ClosesAt(s, e);
        forall j | pos + 2 <= j < e ensures !ClosesAt(s, j) {
          assert s[j] == t[j - pos] == b[j - pos - 2];
          if j + 1 < e {
            assert s[j + 1] == t[j + 1 - pos] == b[j + 1 - pos - 2];
          }
        }
        assert SkipBlockComment(s, pos) == Ok(e + 2);
    }
  }

  /** The text of the first piece of a rendered run, and what follows it. */
  lemma RenderFirst(s: string, pos: nat, ps: seq<Piece>)
    requires |ps| > 0 && OccursAt(s, pos, Render(ps)) && ValidTrivia(ps)
    requires StopsAt(s, pos + |Render(ps)|, ps)
    ensures OccursAt(s, pos, PieceText(ps[0])) && ValidPiece(ps[0]) && ValidTrivia(ps[1..])
    ensures OccursAt(s, pos + |PieceText(ps[0])|, Render(ps[1..]))
    ensures pos + |Render(ps)| == pos + |PieceText(ps[0])| + |Render(ps[1..])|
    ensures StopsAt(s, pos + |Render(ps)|, ps[1..])
    ensures ps[0].LineComment? ==>
              pos + |PieceText(ps[0])| == |s| || s[pos + |PieceText(ps[0])|] == '\n'
  {
    var p, tail := ps[0], ps[1..];
    var n := |PieceText(p)|;
    OccursConcat(s, pos, PieceText(p), Render(tail));
    if |tail| > 0 {
      assert tail[|tail| - 1] == ps[|ps| - 1];
      if p.LineComment? {
        assert Render(tail) == PieceText(tail[0]) + Render(tail[1..]);
        assert s[pos + n] == Render(tail)[0];
      }
    }
  }

  /** The loop stops at once before a character that is neither white
      space nor a slash. */
  lemma SkipTriviaAtStop(s: string, pos: nat)
    requires StopsAt(s, pos, [])
    ensures SkipTrivia(s, pos) == Ok(pos)
  {
  }

  /** The comment-skipping loop, started on a rendered valid run followed by
      text that starts no comment and no white space, stops right after the
      run. */
  lemma SkipTriviaOverRender(s: string, pos: nat, ps: seq<Piece>)
    requires OccursAt(s, pos, Render(ps)) && ValidTrivia(ps)
    requires StopsAt(s, pos + |Render(ps)|, ps)
    ensures SkipTrivia(s, pos).Ok? && SkipTrivia(s, pos).value == pos + |Render(ps)|
  {
    var e := pos + |Render(ps)|;
    SkipTriviaOverRenderTo(s, pos, ps, e);
    SkipTriviaAtStop(s, e);
  }

  /** Skipping from the start of the run gives what skipping from its end
      `e` gives. */
  lemma {:induction false} SkipTriviaOverRenderTo(s: string, pos: nat, ps: seq<Piece>, e: nat)
    requires OccursAt(s, pos, Render(ps)) && ValidTrivia(ps)
    requires e == pos + |Render(ps)| && StopsAt(s, e, ps)
    ensures e <= |s| && SkipTrivia(s, pos) == SkipTrivia(s, e)
    decreases |ps|
  {
    if |ps| > 0 {
      var m := pos + |PieceText(ps[0])|;
      SkipRunHead(s, pos, ps, e, m);
      SkipTriviaOverRenderTo(s, m, ps[1..], e);
    }
  }

  /** Skipping the first piece of the run, and what is left of the run. */
  lemma SkipRunHead(s: string, pos: nat, ps: seq<Piece>, e: nat, m: nat)
    requires |ps| > 0 && OccursAt(s, pos, Render(ps)) && ValidTrivia(ps)
    requires e == pos + |Render(ps)| && StopsAt(s, e, ps) && m == pos + |PieceText(ps[0])|
    ensures OccursAt(s, m, Render(ps[1..])) && ValidTrivia(ps[1..])
    ensures e == m + |Render(ps[1..])| && StopsAt(s, e, ps[1..])
    ensures m <= |s| && SkipTrivia(s, pos) == SkipTrivia(s, m)
  {
    RenderFirst(s, pos, ps);
    SkipPieceTo(s, pos, ps[0], m);
  }

  /** Text made only of white space and comments produces no tokens. */
  lemma TriviaTokenizesToNothing(ps: seq<Piece>)
    requires ValidTrivia(ps)
    ensures Tokenize(Render(ps)) == Ok([])
  {
    SkipTriviaOverRender(Render(ps), 0, ps);
  }

  // ---------------------------------------------------------------------------
  // What the skipping loop consumes, and when it fails

  predicate StartsWithSpace(ps: seq<Piece>, c: char) {
    |ps| > 0 && ps[0] == Space(c)
  }

  /** A valid piece read from `s[pos..e]`, in front of a valid run read from
      `s[e..r]`, is a valid run read from `s[pos..r]`; a line comment must be
      followed by a newline piece. */
  lemma TriviaCons(s: string, pos: nat, e: nat, r: nat, p: Piece, rest: seq<Piece>, last: bool)
    requires pos <= e <= r <= |s| && s[pos..e] == PieceText(p) && Render(rest) == s[e..r]
    requires ValidPiece(p) && ValidSeparator(rest, last)
    requires p.LineComment? ==> (|rest| == 0 && last) || StartsWithSpace(rest, '\n')
    ensures ValidSeparator([p] + rest, last) && Render([p] + rest) == s[pos..r]
  {
    SeparatorCons(p, rest, last);
    RenderCons(p, rest);
    SliceConcat(s, pos, e, r);
  }

  lemma SliceConcat(s: string, i: nat, j: nat, k: nat)
    requires i <= j <= k <= |s|
    ensures s[i..k] == s[i..j] + s[j..k]
  {
  }

  lemma RenderCons(p: Piece, rest: seq<Piece>)
    ensures Render([p] + rest) == PieceText(p) + Render(rest)
  {
    assert ([p] + rest)[1..] == rest;
  }

  lemma SeparatorCons(p: Piece, rest: seq<Piece>, last: bool)
    requires ValidPiece(p) && ValidSeparator(rest, last)
    requires p.LineComment? ==> (|rest| == 0 && last) || StartsWithSpace(rest, '\n')
    ensures ValidSeparator([p] + rest, last)
  {
    var ps := [p] + rest;
    assert ps[1..] == rest;
    if |rest| > 0 {
      assert ps[|ps| - 1] == rest[|rest| - 1];
    }
  }

  /** The comment `//b` that `SkipLineComment` consumes from `pos`. */
  lemma LineCommentText(s: string, pos: nat)
    requires pos + 2 <= |s| && s[pos] == '/' && s[pos + 1] == '/'
    ensures var e := SkipLineComment(s, pos);
      ValidPiece(LineComment(s[pos + 2..e])) && s[pos..e] == PieceText(LineComment(s[pos + 2..e]))
  {
    var e := SkipLineComment(s, pos);
    var b := s[pos + 2..e];
    assert forall i :: 0 <= i < |b| ==> b[i] == s[pos + 2 + i];
    assert s[pos..e] == "//" + b;
  }

  /** The comment `/*b*/` that `SkipBlockComment` consumes from `pos`. */
  lemma BlockCommentText(s: string, pos: nat)
    requires pos + 2 <= |s| && s[pos] == '/' && s[pos + 1] == '*' && SkipBlockComment(s, pos).Ok?
    ensures var e := SkipBlockComment(s, pos).value;
      ValidPiece(BlockComment(s[pos + 2..e - 2])) && s[pos..e] == PieceText(BlockComment(s[pos + 2..e - 2]))
  {
    var e := SkipBlockComment(s, pos).value;
    var b := s[pos + 2..e - 2];
    forall j | 0 <= j < |b| - 1 ensures !(b[j] == '*' && b[j + 1] == '/') {
      assert b[j] == s[pos + 2 + j] && b[j + 1] == s[pos + 2 + j + 1];
      assert !ClosesAt(s, pos + 2 + j);
    }
    assert ClosesAt(s, e - 2);
    assert s[pos..e] == "/*" + b + "*/";
  }

  /** The skipping loop steps over a white-space character. */
  lemma SkipSpaceStep(s: string, pos: nat) returns (p: Piece, e: nat)
    requires pos < |s| && IsSpace(s[pos])
    ensures pos < e <= |s| && s[pos..e] == PieceText(p) && ValidPiece(p) && !p.LineComment?
    ensures SkipTrivia(s, pos) == SkipTrivia(s, e) && p == Space(s[pos])
  {
    p, e := Space(s[pos]), pos + 1;
  }

  /** The skipping loop steps over a line comment, which ends at a newline or
      at the end of the input. */
  lemma SkipLineStep(s: string, pos: nat) returns (p: Piece, e: nat)
    requires pos + 1 < |s| && !IsSpace(s[pos]) && s[pos] == '/' && s[pos + 1] == '/'
    ensures pos < e <= |s| && s[pos..e] == PieceText(p) && ValidPiece(p)
    ensures SkipTrivia(s, pos) == SkipTrivia(s, e) && (e == |s| || s[e] == '\n')
  {
    e := SkipLineComment(s, pos);
    p := LineComment(s[pos + 2..e]);
    LineCommentText(s, pos);
  }

  /** The skipping loop steps over a closed block comment. */
  lemma SkipBlockStep(s: string, pos: nat) returns (p: Piece, e: nat)
    requires pos + 1 < |s| && !IsSpace(s[pos]) && s[pos] == '/' && s[pos + 1] == '*'
    requires SkipBlockComment(s, pos).Ok?
    ensures pos < e <= |s| && s[pos..e] == PieceText(p) && ValidPiece(p) && !p.LineComment?
    ensures SkipTrivia(s, pos) == SkipTrivia(s, e)
  {
    e := SkipBlockComment(s, pos).value;
    p := BlockComment(s[pos + 2..e - 2]);
    BlockCommentText(s, pos);
  }

  /** The piece the skipping loop consumes at `pos`, and where it ends. */
  lemma SkippedPiece(s: string, pos: nat) returns (p: Piece, e: nat)
    requires pos < |s| && StartsTrivia(s, pos)
    requires !IsSpace(s[pos]) && s[pos + 1] == '*' ==> SkipBlockComment(s, pos).Ok?
    ensures pos < e <= |s| && s[pos..e] == PieceText(p) && ValidPiece(p)
    ensures SkipTrivia(s, pos) == SkipTrivia(s, e)
    ensures IsSpace(s[pos]) ==> p == Space(s[pos])
    ensures p.LineComment? ==> e == |s| || s[e] == '\n'
  {
    if IsSpace(s[pos]) {
      p, e := SkipSpaceStep(s, pos);
    } else if s[pos + 1] == '/' {
      p, e := SkipLineStep(s, pos);
    } else {
      p, e := SkipBlockStep(s, pos);
    }
  }

  /** Everything the skipping loop consumes is a separator of white space and
      comments, and only a separator reaching the end of the input may end in
      a line comment. */
  lemma {:induction false} SkipTriviaPieces(s: string, pos: nat) returns (ps: seq<Piece>)
    requires pos <= |s| && SkipTrivia(s, pos).Ok?
    ensures ValidSeparator(ps, SkipTrivia(s, pos).value == |s|)
    ensures Render(ps) == s[pos..SkipTrivia(s, pos).value]
    ensures pos < |s| && IsSpace(s[pos]) ==> StartsWithSpace(ps, s[pos])
    decreases |s| - pos
  {
    var r := SkipTrivia(s, pos).value;
    if pos == |s| || !StartsTrivia(s, pos) {
      ps := [];
    } else {
      var p, e := SkippedPiece(s, pos);
      var rest := SkipTriviaPieces(s, e);
      ps := [p] + rest;
      TriviaCons(s, pos, e, r, p, rest, r == |s|);
    }
  }

  /** `ps` renders `s[pos..q]` as a separator not ending in a line comment,
      and the block comment opened at `q` is never closed. */
  predicate FailsAfter(s: string, pos: nat, ps: seq<Piece>, q: nat) {
    && pos <= q && q + 1 < |s| && s[q] == '/' && s[q + 1] == '*' && SkipBlockComment(s, q).Err?
    && ValidSeparator(ps, false) && Render(ps) == s[pos..q]
    && (pos < |s| && IsSpace(s[pos]) ==> StartsWithSpace(ps, s[pos]))
  }

  /** A block comment opened at `pos` and never closed. */
  lemma UnclosedHere(s: string, pos: nat) returns (ps: seq<Piece>, q: nat)
    requires pos + 1 < |s| && !IsSpace(s[pos]) && StartsTrivia(s, pos) && s[pos + 1] == '*'
    requires SkipBlockComment(s, pos).Err?
    ensures FailsAfter(s, pos, ps, q)
  {
    ps, q := [], pos;
  }

  /** A skipped piece in front of the separator before an unclosed comment. */
  lemma FailureCons(s: string, pos: nat, e: nat, q: nat, p: Piece, rest: seq<Piece>) returns (ps: seq<Piece>)
    requires pos < e && FailsAfter(s, e, rest, q)
    requires s[pos..e] == PieceText(p) && ValidPiece(p)
    requires p.LineComment? ==> e == |s| || s[e] == '\n'
    requires IsSpace(s[pos]) ==> p == Space(s[pos])
    ensures FailsAfter(s, pos, ps, q)
  {
    ps := [p] + rest;
    TriviaCons(s, pos, e, q, p, rest, false);
  }

  /** One round of a failing skip: either the block comment at `pos` is
      never closed, or a piece is skipped and skipping fails after it. */
  lemma FailureStep(s: string, pos: nat) returns (stop: bool, p: Piece, e: nat)
    requires pos <= |s| && SkipTrivia(s, pos).Err?
    ensures stop ==> pos + 1 < |s| && !IsSpace(s[pos]) && StartsTrivia(s, pos) && s[pos + 1] == '*'
    ensures stop ==> SkipBlockComment(s, pos).Err?
    ensures !stop ==> pos < e <= |s| && s[pos..e] == PieceText(p) && ValidPiece(p) && SkipTrivia(s, e).Err?
    ensures !stop ==> (p.LineComment? ==> e == |s| || s[e] == '\n')
    ensures !stop ==> (IsSpace(s[pos]) ==> p == Space(s[pos]))
  {
    assert pos < |s| && StartsTrivia(s, pos);
    stop := !IsSpace(s[pos]) && s[pos + 1] == '*' && SkipBlockComment(s, pos).Err?;
    if stop {
      p, e := Space(' '), pos;
    } else {
      p, e := SkippedPiece(s, pos);
    }
  }

  /** The skipping loop fails only on a block comment that is never closed,
      reached after a separator of white space and comments that does not
      end in a line comment. */
  lemma SkipTriviaFailure(s: string, pos: nat) returns (ps: seq<Piece>, q: nat)
    requires pos <= |s| && SkipTrivia(s, pos).Err?
    ensures pos <= q && q + 2 <= |s| && s[q] == '/' && s[q + 1] == '*'
    ensures forall j :: q + 2 <= j ==> !ClosesAt(s, j)
    ensures ValidSeparator(ps, false) && Render(ps) == s[pos..q]
  {
    ps, q := FailurePieces(s, pos);
  }

  lemma {:induction false} FailurePieces(s: string, pos: nat) returns (ps: seq<Piece>, q: nat)
    requires pos <= |s| && SkipTrivia(s, pos).Err?
    ensures FailsAfter(s, pos, ps, q)
    decreases |s| - pos
  {
    var stop, p, e := FailureStep(s, pos);
    if stop {
      ps, q := UnclosedHere(s, pos);
    } else {
      var rest;
      rest, q := FailurePieces(s, e);
      ps := FailureCons(s, pos, e, q, p, rest);
    }
  }

  /** The first piece of a rendered separator, and the rest after it. */
  lemma SeparatorHead(s: string, pos: nat, ps: seq<Piece>)
    requires |ps| > 0 && OccursAt(s, pos, Render(ps)) && ValidSeparator(ps, false)
    ensures OccursAt(s, pos, PieceText(ps[0])) && ValidPiece(ps[0]) && ValidSeparator(ps[1..], false)
    ensures OccursAt(s, pos + |PieceText(ps[0])|, Render(ps[1..]))
    ensures |Render(ps)| == |PieceText(ps[0])| + |Render(ps[1..])|
    ensures ps[0].LineComment? ==> pos + |PieceText(ps[0])| == |s| || s[pos + |PieceText(ps[0])|] == '\n'
  {
    var p, tail := ps[0], ps[1..];
    var n := |PieceText(p)|;
    OccursConcat(s, pos, PieceText(p), Render(tail));
    if |tail| > 0 {
      assert tail[|tail| - 1] == ps[|ps| - 1];
    }
    if p.LineComment? {
      assert Render(tail) == PieceText(tail[0]) + Render(tail[1..]);
      assert s[pos + n] == Render(tail)[0];
    }
  }

  /** Skipping a rendered run that does not end in a line comment continues
      from the end `e` of the run, whatever follows it. */
  lemma {:induction false} SkipTriviaThrough(s: string, pos: nat, ps: seq<Piece>, e: nat)
    requires OccursAt(s, pos, Render(ps)) && ValidSeparator(ps, false) && e == pos + |Render(ps)|
    ensures e <= |s| && SkipTrivia(s, pos) == SkipTrivia(s, e)
    decreases |ps|
  {
    if |ps| > 0 {
      SeparatorHead(s, pos, ps);
      var m := pos + |PieceText(ps[0])|;
      SkipTriviaThrough(s, m, ps[1..], e);
      SkipPieceTo(s, pos, ps[0], m);
    }
  }

  /** Skipping from the start of a valid piece gives what skipping from its
      end `m` gives. */
  lemma SkipPieceTo(s: string, pos: nat, p: Piece, m: nat)
    requires OccursAt(s, pos, PieceText(p)) && ValidPiece(p) && m == pos + |PieceText(p)|
    requires p.LineComment? ==> m == |s| || s[m] == '\n'
    ensures m <= |s| && SkipTrivia(s, pos) == SkipTrivia(s, m)
  {
    SkipOnePiece(s, pos, p);
  }

  /** A block comment that is opened after white space and comments and
      never closed makes lexing fail with the unterminated-comment error. */
  lemma UnterminatedComment(ps: seq<Piece>, b: string)
    requires ValidSeparator(ps, false)
    requires forall j :: 0 <= j < |b| - 1 ==> !(b[j] == '*' && b[j + 1] == '/')
    ensures Tokenize(Render(ps) + "/*" + b) == Err(Lexer.UnterminatedComment)
  {
    var s := Render(ps) + "/*" + b;
    var q := |Render(ps)|;
    assert OccursAt(s, 0, Render(ps)) by {
      assert forall i :: 0 <= i < q ==> s[i] == Render(ps)[i];
    }
    SkipTriviaThrough(s, 0, ps, q);
    assert s[q] == '/' && s[q + 1] == '*';
    forall j | q + 2 <= j ensures !ClosesAt(s, j) {
      if j + 1 < |s| {
        assert s[j] == b[j - q - 2] && s[j + 1] == b[j - q - 1];
      }
    }
    assert SkipTrivia(s, q) == Err(Lexer.UnterminatedComment);
  }

  /** A slash, a star and a slash form an unterminated comment: the star of
      the opening cannot also close it. */
  lemma UnterminatedSlashStarSlash()
    ensures Tokenize("/*/") == Err(Lexer.UnterminatedComment)
  {
    UnterminatedComment([], "/");
    assert Render([]) + "/*" + "/" == "/*/";
  }

  /** Text that no pattern matches, met after white space and comments,
      makes lexing fail with an invalid token at the index where it starts. */
  lemma InvalidTokenAfter(ps: seq<Piece>, x: string)
    requires ValidSeparator(ps, false) && |x| > 0
    requires !StartsTrivia(Render(ps) + x, |Render(ps)|)
    requires NoTokenAt(Render(ps) + x, |Render(ps)|)
    ensures Tokenize(Render(ps) + x) == Err(InvalidToken(|Render(ps)|))
  {
    var s := Render(ps) + x;
    var q := |Render(ps)|;
    assert OccursAt(s, 0, Render(ps)) by {
      assert forall i :: 0 <= i < q ==> s[i] == Render(ps)[i];
    }
    SkipTriviaThrough(s, 0, ps, q);
    assert SkipTrivia(s, q) == Ok(q);
    NextTokenFails(s, q);
  }

  /** A character that starts no token is rejected where it stands. */
  lemma InvalidCharacter()
    ensures Tokenize("@") == Err(InvalidToken(0))
  {
    InvalidCharacterAfter([]);
    assert Render([]) + "@" == "@";
  }

  lemma InvalidCharacterAfter(ps: seq<Piece>)
    requires ValidSeparator(ps, false)
    ensures Tokenize(Render(ps) + "@") == Err(InvalidToken(|Render(ps)|))
  {
    var s := Render(ps) + "@";
    assert s[|Render(ps)|] == '@';
    InvalidTokenAfter(ps, "@");
  }

  /** A constant running straight into a letter is no token at all, since
      the constant pattern must end at a word boundary. */
  lemma InvalidConstant()
    ensures Tokenize("123abc") == Err(InvalidToken(0))
  {
    var s := Render([]) + "123abc";
    assert s == "123abc";
    assert IsDigit(s[0]) && IsDigit(s[1]) && IsDigit(s[2]) && !IsDigit(s[3]) && IsIdentStart(s[3]);
    SpanEndUnique(s, 0, IsDigit, 3);
    InvalidTokenAfter([], "123abc");
  }

  // ---------------------------------------------------------------------------
  // Scanning one token

  /** The word-boundary condition after a token ending at `e`: a word-like
      token must not run into another word character. */
  predicate TokenEndsCleanly(s: string, e: nat, t: Token) {
    e == |s| || (e < |s| && (!IsWordToken(t) || !IsWordChar(s[e])))
  }

  /** The identifier scanner on a word-like token that ends cleanly. */
  lemma IdentifierScanOnToken(s: string, pos: nat, t: Token)
    requires IsIdentifierText(t.text) && OccursAt(s, pos, t.text)
    requires pos + |t.text| == |s| || !IsWordChar(s[pos + |t.text|])
    ensures MatchLength(Identifier, s, pos) == |t.text|
  {
    var e := pos + |t.text|;
    assert IsIdentStart(s[pos]) by { assert s[pos] == t.text[0]; }
    forall k | pos + 1 <= k < e ensures IsWordChar(s[k]) {
      assert s[k] == t.text[k - pos];
    }
    SpanEndUnique(s, pos + 1, IsWordChar, e);
  }

  /** The constant scanner on a digit string that ends cleanly. */
  lemma ConstantScanOnToken(s: string, pos: nat, t: Token)
    requires 1 <= |t.text| && AllDigits(t.text) && OccursAt(s, pos, t.text)
    requires pos + |t.text| == |s| || !IsWordChar(s[pos + |t.text|])
    ensures MatchLength(Constant, s, pos) == |t.text|
  {
    var e := pos + |t.text|;
    forall k | pos <= k < e ensures IsDigit(s[k]) {
      assert s[k] == t.text[k - pos];
    }
    SpanEndUnique(s, pos, IsDigit, e);
    assert IsWordChar(s[e - 1]);
  }

  /** Each pattern's scanner, run on the text of a well-formed token, finds
      the whole token when it is the pattern that produces the token's kind,
      and nothing otherwise. */
  lemma MatchLengthOnToken(s: string, pos: nat, t: Token, q: TokenKind)
    requires WellFormed(t) && 1 <= |t.text| && OccursAt(s, pos, t.text)
    requires TokenEndsCleanly(s, pos + |t.text|, t)
    ensures MatchLength(q, s, pos) == if q == PatternOf(t.kind) then |t.text| else 0
  {
    assert s[pos] == t.text[0];
    if q == PatternOf(t.kind) {
      if q == Identifier {
        IdentifierScanOnToken(s, pos, t);
      } else if q == Constant {
        ConstantScanOnToken(s, pos, t);
      }
    } else if q == Constant {
      assert IsIdentStart(t.text[0]) || !IsDigit(t.text[0]);
    }
  }

  /** The longest-match search on a well-formed token picks its pattern and
      its whole text. */
  lemma FindLongestMatchOnToken(s: string, pos: nat, t: Token)
    requires WellFormed(t) && 1 <= |t.text| && OccursAt(s, pos, t.text)
    requires TokenEndsCleanly(s, pos + |t.text|, t)
    ensures FindLongestMatch(s, pos) == Ok(Match(PatternOf(t.kind), |t.text|))
  {
    forall q ensures MatchLength(q, s, pos) == if q == PatternOf(t.kind) then |t.text| else 0 {
      MatchLengthOnToken(s, pos, t, q);
    }
    FindLongestMatchIsLongest(s, pos);
  }

  /** `getNextToken` on the text of a well-formed token that ends cleanly
      returns exactly that token. */
  lemma NextTokenOfText(s: string, pos: nat, t: Token)
    requires WellFormed(t) && OccursAt(s, pos, t.text)
    requires TokenEndsCleanly(s, pos + |t.text|, t)
    ensures pos < |s| && NextToken(s, pos) == Ok(t)
  {
    assert 1 <= |t.text|;
    FindLongestMatchOnToken(s, pos, t);
    NextTokenOfMatch(s, pos, Match(PatternOf(t.kind), |t.text|));
    TokenOfMatchOnToken(s, pos, t);
  }

  lemma TokenOfMatchOnToken(s: string, pos: nat, t: Token)
    requires WellFormed(t) && OccursAt(s, pos, t.text)
    ensures TokenOfMatch(s, pos, Match(PatternOf(t.kind), |t.text|)) == t
  {
    OccursSlice(s, pos, t.text);
    ReclassifyPattern(t);
  }

  lemma OccursSlice(s: string, pos: nat, t: string)
    requires OccursAt(s, pos, t)
    ensures s[pos..pos + |t|] == t
  {
  }

  /** Reclassifying the text of a well-formed token recovers its kind. */
  lemma ReclassifyPattern(t: Token)
    requires WellFormed(t)
    ensures Reclassify(PatternOf(t.kind), t.text) == t.kind
  {
  }

  // ---------------------------------------------------------------------------
  // Tokens inside a layout

  lemma OccursJoin(s: string, pos: nat, a: string, b: string)
    requires OccursAt(s, pos, a) && OccursAt(s, pos + |a|, b)
    ensures OccursAt(s, pos, a + b)
  {
    forall i | 0 <= i < |a + b| ensures s[pos + i] == (a + b)[i] {
      if i >= |a| {
        assert s[pos + |a| + (i - |a|)] == b[i - |a|];
      }
    }
  }

  /** A well-formed token starts with neither white space nor a slash, and it
      is word-like exactly when its first character is a word character. */
  lemma TokenStart(t: Token)
    requires WellFormed(t)
    ensures 1 <= |t.text| && !IsSpace(t.text[0]) && t.text[0] != '/'
    ensures IsWordToken(t) <==> IsWordChar(t.text[0])
  {
    if t.kind == Constant {
      assert IsDigit(t.text[0]);
    }
  }

  /** The first character of a non-empty layout: white space or a slash when
      the first separator is non-empty, the first token's first character
      otherwise. */
  lemma LayoutStart(s: string, q: nat, toks: seq<Token>, seps: seq<seq<Piece>>)
    requires ValidLayout(toks, seps) && OccursAt(s, q, Layout(toks, seps)) && q < |s|
    requires q + |Layout(toks, seps)| == |s|
    ensures |seps[0]| > 0 ==> IsSpace(s[q]) || s[q] == '/'
    ensures |seps[0]| == 0 ==> |toks| > 0 && WellFormed(toks[0]) && s[q] == toks[0].text[0]
  {
    var L := Layout(toks, seps);
    assert s[q] == L[0];
    if |toks| == 0 {
      assert L == Render(seps[0]);
      if |seps[0]| > 0 {
        RenderNonEmptyStart(seps[0]);
      }
    } else {
      LayoutUnfold(toks, seps);
      if |seps[0]| > 0 {
        RenderNonEmptyStart(seps[0]);
        assert L[0] == Render(seps[0])[0];
      } else {
        TokenStart(toks[0]);
        assert Render(seps[0]) == "";
        assert L[0] == toks[0].text[0];
      }
    }
  }

  /** In a valid layout, each token ends cleanly: what follows it is the end
      of the input, a separator, or a token that cannot merge with it. */
  lemma TokenEndsCleanlyInLayout(s: string, q: nat, t: Token, toks: seq<Token>, seps: seq<seq<Piece>>)
    requires ValidLayout([t] + toks, seps)
    requires OccursAt(s, q, Layout(toks, seps[1..])) && q + |Layout(toks, seps[1..])| == |s|
    ensures TokenEndsCleanly(s, q, t)
  {
    assert ([t] + toks)[1..] == toks;
    assert ValidLayout(toks, seps[1..]);
    if q < |s| {
      LayoutStart(s, q, toks, seps[1..]);
      if |seps[1]| == 0 {
        TokenStart(toks[0]);
      }
    }
  }

  /** A layout with no tokens is skipped to its end. */
  lemma TokenizeTrailing(s: string, pos: nat, sep: seq<Piece>)
    requires ValidSeparator(sep, true) && OccursAt(s, pos, Render(sep)) && pos + |Render(sep)| == |s|
    ensures TokenizeFrom(s, pos) == Ok([])
  {
    SkipTriviaOverRender(s, pos, sep);
  }

  /** A layout with at least one token splits into its first separator,
      its first token and the layout of the rest. */
  lemma LayoutSplit(s: string, pos: nat, toks: seq<Token>, seps: seq<seq<Piece>>) returns (p: nat, q: nat)
    requires ValidLayout(toks, seps) && |toks| > 0
    requires OccursAt(s, pos, Layout(toks, seps)) && pos + |Layout(toks, seps)| == |s|
    ensures p == pos + |Render(seps[0])| && q == p + |toks[0].text|
    ensures OccursAt(s, pos, Render(seps[0])) && OccursAt(s, p, toks[0].text)
    ensures OccursAt(s, q, Layout(toks[1..], seps[1..])) && q + |Layout(toks[1..], seps[1..])| == |s|
    ensures ValidLayout(toks[1..], seps[1..])
  {
    p := pos + |Render(seps[0])|;
    q := p + |toks[0].text|;
    LayoutUnfold(toks, seps);
    OccursThree(s, pos, Render(seps[0]), toks[0].text, Layout(toks[1..], seps[1..]));
  }

  lemma LayoutUnfold(toks: seq<Token>, seps: seq<seq<Piece>>)
    requires ValidLayout(toks, seps) && |toks| > 0
    ensures Layout(toks, seps) == Render(seps[0]) + (toks[0].text + Layout(toks[1..], seps[1..]))
    ensures ValidLayout(toks[1..], seps[1..])
  {
  }

  lemma OccursThree(s: string, pos: nat, a: string, b: string, c: string)
    requires OccursAt(s, pos, a + (b + c)) && pos + |a + (b + c)| == |s|
    ensures OccursAt(s, pos, a) && OccursAt(s, pos + |a|, b) && OccursAt(s, pos + |a| + |b|, c)
    ensures pos + |a| + |b| + |c| == |s|
  {
    OccursConcat(s, pos, a, b + c);
    OccursConcat(s, pos + |a|, b, c);
  }

  /** The separator before a token is skipped up to the token. */
  lemma SeparatorSkipped(s: string, pos: nat, p: nat, sep: seq<Piece>, t: Token)
    requires ValidSeparator(sep, false) && WellFormed(t)
    requires p == pos + |Render(sep)| && OccursAt(s, pos, Render(sep)) && OccursAt(s, p, t.text)
    ensures pos < |s| && p < |s| && SkipTrivia(s, pos) == Ok(p)
  {
    TokenStart(t);
    assert s[p] == t.text[0];
    SkipTriviaOverRender(s, pos, sep);
  }

  /** A token of a layout is scanned whole. */
  lemma TokenScanned(s: string, p: nat, q: nat, toks: seq<Token>, seps: seq<seq<Piece>>)
    requires ValidLayout(toks, seps) && |toks| > 0
    requires q == p + |toks[0].text| && OccursAt(s, p, toks[0].text)
    requires OccursAt(s, q, Layout(toks[1..], seps[1..])) && q + |Layout(toks[1..], seps[1..])| == |s|
    ensures p < |s| && NextToken(s, p) == Ok(toks[0])
  {
    assert [toks[0]] + toks[1..] == toks;
    TokenEndsCleanlyInLayout(s, q, toks[0], toks[1..], seps);
    NextTokenOfText(s, p, toks[0]);
  }

  /** One round of the scanning loop on a layout with at least one token:
      the separator is skipped and the first token is scanned whole. */
  lemma LayoutStep(s: string, pos: nat, p: nat, q: nat, toks: seq<Token>, seps: seq<seq<Piece>>)
    requires ValidLayout(toks, seps) && |toks| > 0
    requires p == pos + |Render(seps[0])| && q == p + |toks[0].text|
    requires OccursAt(s, pos, Render(seps[0])) && OccursAt(s, p, toks[0].text)
    requires OccursAt(s, q, Layout(toks[1..], seps[1..])) && q + |Layout(toks[1..], seps[1..])| == |s|
    ensures pos < |s| && ScanStep(s, pos).Ok? && ScanStep(s, pos).value.Next?
    ensures ScanStep(s, pos).value.token == toks[0] && ScanStep(s, pos).value.next == q
  {
    SeparatorSkipped(s, pos, p, seps[0], toks[0]);
    TokenScanned(s, p, q, toks, seps);
    ScanStepOf(s, pos, p, toks[0]);
  }

  /** Scanning a valid layout from its start yields exactly its tokens. */
  lemma {:induction false} TokenizeLayout(s: string, pos: nat, toks: seq<Token>, seps: seq<seq<Piece>>)
    requires ValidLayout(toks, seps)
    requires OccursAt(s, pos, Layout(toks, seps)) && pos + |Layout(toks, seps)| == |s|
    ensures TokenizeFrom(s, pos) == Ok(toks)
    decreases |toks|
  {
    if |toks| == 0 {
      TokenizeTrailing(s, pos, seps[0]);
      assert toks == [];
    } else {
      var p, q := LayoutSplit(s, pos, toks, seps);
      TokenizeLayout(s, q, toks[1..], seps[1..]);
      LayoutStep(s, pos, p, q, toks, seps);
      assert [toks[0]] + toks[1..] == toks;
    }
  }

  /** The lexer recovers the tokens of every valid layout. */
  lemma TokenizeRoundTrip(toks: seq<Token>, seps: seq<seq<Piece>>)
    requires ValidLayout(toks, seps)
    ensures Tokenize(Layout(toks, seps)) == Ok(toks)
  {
    TokenizeLayout(Layout(toks, seps), 0, toks, seps);
  }

  // ---------------------------------------------------------------------------
  // Every successful scan reads a layout

  /** A successful scan from `pos` reads the rest of the input as a valid
      layout of the tokens it returns; with `TokenizeLayout` this makes the
      valid layouts exactly the inputs the lexer accepts. */
  lemma {:induction false} ScanIsLayout(s: string, pos: nat) returns (seps: seq<seq<Piece>>)
    requires pos <= |s| && TokenizeFrom(s, pos).Ok?
    ensures ValidLayout(TokenizeFrom(s, pos).value, seps)
    ensures Layout(TokenizeFrom(s, pos).value, seps) == s[pos..]
    decreases |s| - pos
  {
    if pos == |s| {
      seps := [[]];
      assert Render([]) == s[pos..];
    } else if ScanStep(s, pos).value.Done? {
      var ps := SkipTriviaPieces(s, pos);
      seps := [ps];
    } else {
      var t, q := ScanStep(s, pos).value.token, ScanStep(s, pos).value.next;
      var p := SkipTrivia(s, pos).value;
      var ps := SkipTriviaPieces(s, pos);
      var rest := TokenizeFrom(s, q).value;
      var more := ScanIsLayout(s, q);
      seps := [ps] + more;
      assert TokenizeFrom(s, pos).value == [t] + rest;
      ScannedToken(s, p, q, t);
      if |rest| > 0 && more[0] == [] && IsWordToken(t) {
        NextTokenEndsWord(s, p, t, q);
        LayoutStart(s, q, rest, more);
        TokenStart(rest[0]);
      }
      LayoutOfScanStep(s, pos, p, q, t, ps, rest, more);
    }
  }

  /** The token scanned at `p` is well formed and is the text up to `q`. */
  lemma ScannedToken(s: string, p: nat, q: nat, t: Token)
    requires p < |s| && NextToken(s, p) == Ok(t) && q == p + |t.text|
    ensures q <= |s| && t.text == s[p..q] && WellFormed(t)
  {
    NextTokenWellFormed(s, p);
  }

  /** One round of a successful scan adds a separator and a token in front
      of the layout of the rest. */
  lemma LayoutOfScanStep(s: string, pos: nat, p: nat, q: nat, t: Token, ps: seq<Piece>,
                         rest: seq<Token>, more: seq<seq<Piece>>)
    requires pos <= p <= q <= |s|
    requires ValidSeparator(ps, false) && Render(ps) == s[pos..p]
    requires WellFormed(t) && t.text == s[p..q]
    requires ValidLayout(rest, more) && Layout(rest, more) == s[q..]
    requires |rest| > 0 && more[0] == [] ==> !(IsWordToken(t) && IsWordToken(rest[0]))
    ensures ValidLayout([t] + rest, [ps] + more)
    ensures Layout([t] + rest, [ps] + more) == s[pos..]
  {
    var toks, seps := [t] + rest, [ps] + more;
    assert toks[1..] == rest && seps[1..] == more;
    assert Layout(toks, seps) == Render(ps) + t.text + Layout(rest, more);
    SliceConcat(s, pos, p, q);
    SliceConcat(s, pos, q, |s|);
  }

  /** The lexer accepts exactly the valid layouts: a successful scan of `s`
      has a valid layout rendering `s`, and a valid layout scans back to its
      tokens. */
  lemma TokenizeIsLayout(s: string) returns (seps: seq<seq<Piece>>)
    requires Tokenize(s).Ok?
    ensures ValidLayout(Tokenize(s).value, seps) && Layout(Tokenize(s).value, seps) == s
  {
    seps := ScanIsLayout(s, 0);
  }
}
