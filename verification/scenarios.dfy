/** The program the compiler is built for, `int main(void) { return 0; }`,
    followed through the whole pipeline to the exact assembly text. */
module Scenarios {
  import opened Results
  import opened Text
  import opened Tokens
  import opened Layouts
  import opened Lines
  import Pipeline

  /** One more token and its separator in front of a known layout. */
  lemma LayoutText(toks: seq<Token>, seps: seq<seq<Piece>>, i: nat, rest: string)
    requires i < |toks| && |seps| == |toks| + 1
    requires Layout(toks[i + 1..], seps[i + 1..]) == rest
    ensures Layout(toks[i..], seps[i..]) == Render(seps[i]) + toks[i].text + rest
  {
    assert toks[i..][1..] == toks[i + 1..];
    assert seps[i..][1..] == seps[i + 1..];
  }

  /** The text of a layout of the grammar's ten tokens, piece by piece. */
  function ShapeText(name: string, digits: string, seps: seq<seq<Piece>>): string
    requires |seps| == 11
  {
    Render(seps[0]) + "int" + (Render(seps[1]) + name + (Render(seps[2]) + "(" + (Render(seps[3]) + "void" +
    (Render(seps[4]) + ")" + (Render(seps[5]) + "{" + (Render(seps[6]) + "return" + (Render(seps[7]) + digits +
    (Render(seps[8]) + ";" + (Render(seps[9]) + "}" + Render(seps[10]))))))))))
  }

  function ShapeTail(digits: string, seps: seq<seq<Piece>>): string
    requires |seps| == 11
  {
    Render(seps[5]) + "{" + (Render(seps[6]) + "return" + (Render(seps[7]) + digits +
    (Render(seps[8]) + ";" + (Render(seps[9]) + "}" + Render(seps[10])))))
  }

  lemma LayoutOfShapeTail(name: string, digits: string, seps: seq<seq<Piece>>)
    requires |seps| == 11
    ensures var toks := Pipeline.ShapeTokens(name, digits);
      Layout(toks[5..], seps[5..]) == ShapeTail(digits, seps)
  {
    var toks := Pipeline.ShapeTokens(name, digits);
    var r := Render(seps[10]);
    assert Layout(toks[10..], seps[10..]) == r;
    LayoutText(toks, seps, 9, r);
    r := Render(seps[9]) + "}" + r;
    LayoutText(toks, seps, 8, r);
    r := Render(seps[8]) + ";" + r;
    LayoutText(toks, seps, 7, r);
    r := Render(seps[7]) + digits + r;
    LayoutText(toks, seps, 6, r);
    r := Render(seps[6]) + "return" + r;
    LayoutText(toks, seps, 5, r);
  }

  lemma LayoutOfShapeMid(name: string, digits: string, seps: seq<seq<Piece>>)
    requires |seps| == 11
    ensures var toks := Pipeline.ShapeTokens(name, digits);
      Layout(toks[2..], seps[2..])
      == Render(seps[2]) + "(" + (Render(seps[3]) + "void" + (Render(seps[4]) + ")" + ShapeTail(digits, seps)))
  {
    var toks := Pipeline.ShapeTokens(name, digits);
    var r := ShapeTail(digits, seps);
    LayoutOfShapeTail(name, digits, seps);
    LayoutText(toks, seps, 4, r);
    r := Render(seps[4]) + ")" + r;
    LayoutText(toks, seps, 3, r);
    r := Render(seps[3]) + "void" + r;
    LayoutText(toks, seps, 2, r);
  }

  lemma LayoutOfShape(name: string, digits: string, seps: seq<seq<Piece>>)
    requires |seps| == 11
    ensures Layout(Pipeline.ShapeTokens(name, digits), seps) == ShapeText(name, digits, seps)
  {
    var toks := Pipeline.ShapeTokens(name, digits);
    var r := Render(seps[2]) + "(" + (Render(seps[3]) + "void" + (Render(seps[4]) + ")" + ShapeTail(digits, seps)));
    LayoutOfShapeMid(name, digits, seps);
    LayoutText(toks, seps, 1, r);
    r := Render(seps[1]) + name + r;
    LayoutText(toks, seps, 0, r);
    assert toks[0..] == toks && seps[0..] == seps;
  }

  lemma ShapeLayoutValidTail(name: string, digits: string, seps: seq<seq<Piece>>)
    requires 1 <= |digits| && AllDigits(digits)
    requires |seps| == 11 && forall i :: 5 <= i < 11 ==> ValidSeparator(seps[i], i == 10)
    requires seps[7] != []
    ensures ValidLayout(Pipeline.ShapeTokens(name, digits)[5..], seps[5..])
  {
    var toks := Pipeline.ShapeTokens(name, digits);
    assert ValidLayout(toks[10..], seps[10..]);
    assert ValidLayout(toks[9..], seps[9..]);
    assert ValidLayout(toks[8..], seps[8..]);
    assert ValidLayout(toks[7..], seps[7..]);
    assert ValidLayout(toks[6..], seps[6..]);
    assert ValidLayout(toks[5..], seps[5..]);
  }

  lemma ShapeLayoutValidMid(name: string, digits: string, seps: seq<seq<Piece>>)
    requires 1 <= |digits| && AllDigits(digits)
    requires |seps| == 11 && forall i :: 2 <= i < 11 ==> ValidSeparator(seps[i], i == 10)
    requires seps[7] != []
    ensures ValidLayout(Pipeline.ShapeTokens(name, digits)[2..], seps[2..])
  {
    var toks := Pipeline.ShapeTokens(name, digits);
    ShapeLayoutValidTail(name, digits, seps);
    assert ValidLayout(toks[4..], seps[4..]);
    assert ValidLayout(toks[3..], seps[3..]);
    assert ValidLayout(toks[2..], seps[2..]);
  }

  /** When a layout of the grammar's tokens is valid: the name is an
      identifier that is no keyword, the constant is digits, every separator
      is white space and comments (only the last may end in a line comment),
      and `int` and the name, and `return` and the constant, are separated. */
  lemma ShapeLayoutValid(name: string, digits: string, seps: seq<seq<Piece>>)
    requires IsIdentifierText(name) && !IsKeyword(name) && 1 <= |digits| && AllDigits(digits)
    requires |seps| == 11 && forall i :: 0 <= i < 11 ==> ValidSeparator(seps[i], i == 10)
    requires seps[1] != [] && seps[7] != []
    ensures ValidLayout(Pipeline.ShapeTokens(name, digits), seps)
  {
    var toks := Pipeline.ShapeTokens(name, digits);
    ShapeLayoutValidMid(name, digits, seps);
    assert ValidLayout(toks[1..], seps[1..]);
    assert ValidLayout(toks[0..], seps[0..]);
    assert toks[0..] == toks && seps[0..] == seps;
  }

  /** The separators of `int main(void) { return 0; }`: one space before
      `main`, `{`, `return`, `0` and `}`. */
  function ZeroSeps(): seq<seq<Piece>>
  {
    var sp := [Space(' ')];
    [[], sp, [], [], [], sp, sp, sp, [], sp, []]
  }

  /** `int <name>(void) { return <digits>; }`, spaced as usual. */
  function CanonicalSource(name: string, digits: string): string
  {
    "int " + name + "(void) { return " + digits + "; }"
  }

  lemma CanonicalText(name: string, digits: string)
    ensures ShapeText(name, digits, ZeroSeps()) == CanonicalSource(name, digits)
  {
    assert Render([Space(' ')]) == " " && Render([]) == "";
    assert ShapeText(name, digits, ZeroSeps()) == SpacedText(name, digits);
    SpacedTextIsCanonical(name, digits);
  }

  function SpacedText(name: string, digits: string): string
  {
    "" + "int" + (" " + name + ("" + "(" + ("" + "void" + ("" + ")" + (" " + "{" + (" " + "return" + (" " + digits
    + ("" + ";" + (" " + "}" + "")))))))))
  }

  lemma SpacedTextIsCanonical(name: string, digits: string)
    ensures SpacedText(name, digits) == CanonicalSource(name, digits)
  {
  }

  lemma CanonicalValid(name: string, digits: string)
    requires IsIdentifierText(name) && !IsKeyword(name) && 1 <= |digits| && AllDigits(digits)
    ensures ValidLayout(Pipeline.ShapeTokens(name, digits), ZeroSeps())
  {
    assert ValidSeparator([], false) && ValidSeparator([], true) && ValidSeparator([Space(' ')], false);
    ShapeLayoutValid(name, digits, ZeroSeps());
  }

  /** Every program of the accepted shape, written with the usual spacing,
      compiles to the assembly that returns its constant. */
  lemma CanonicalCompiles(name: string, digits: string)
    requires IsIdentifierText(name) && !IsKeyword(name)
    requires 1 <= |digits| && AllDigits(digits) && DecimalValue(digits) <= MaxInt32
    ensures Pipeline.Compile(CanonicalSource(name, digits)).Ok?
    ensures Pipeline.Compile(CanonicalSource(name, digits)).value == JoinLines(Pipeline.ExpectedLines(name, DecimalValue(digits)))
  {
    CanonicalValid(name, digits);
    LayoutOfShape(name, digits, ZeroSeps());
    CanonicalText(name, digits);
    Pipeline.CompileLayout(name, digits, ZeroSeps());
  }

  function ZeroLines(): seq<string>
  {
    [".globl main", "main:", "    movl $0, %eax", "    ret", "", ".section .note.GNU-stack,\"\",@progbits"]
  }

  lemma ZeroSource()
    ensures CanonicalSource("main", "0") == "int main(void) { return 0; }"
  {
  }

  /** The lines of the assembly for `return 0` from `main`. */
  lemma ZeroAssembly()
    ensures Pipeline.ExpectedLines("main", 0) == ZeroLines()
  {
    assert IntToString(0) == "0";
    assert ".globl " + "main" == ".globl main";
    assert "main" + ":" == "main:";
    assert "    movl $" + "0" + ", %eax" == "    movl $0, %eax";
  }

  /** `int main(void) { return 0; }` compiles to the six lines of a
      function that moves 0 into `%eax` and returns, followed by the stack
      note. */
  lemma ReturnZero()
    ensures Pipeline.Compile("int main(void) { return 0; }").Ok?
    ensures Pipeline.Compile("int main(void) { return 0; }").value == JoinLines(ZeroLines())
  {
    assert IsIdentifierText("main") && !IsKeyword("main");
    assert DecimalValue("0") == 0;
    CanonicalCompiles("main", "0");
    ZeroSource();
    ZeroAssembly();
  }
}
